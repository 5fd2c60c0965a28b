/** Config epoch collisions resolve themselves.

    A run here has only pings (any number, delayed and lost at will) besides local bookkeeping: no
    elections, updates or manual bumps.  Every change of a node's own config epoch is then a
    collision step, and there are few of them: a node with r greater-named nodes moves at most r
    times, so the greatest name never moves and N nodes stop after N(N-1)/2 moves.  If no node
    starts out believing that a master has a greater epoch than it has, the states in which no
    ping moves anyone are exactly those without a collision, and every run can reach one. */
module EpochCollision {
  import opened Common
  import opened ClusterState
  import opened ClusterProtocol
  import opened ElectionSafety

  function Own(n: Node): nat { EpochOf(n, n.me) }

  ghost predicate PingOnly(step: Step) {
    step.SendPing? || step.Drop? || step.Deliver? || step.RefreshState? || step.MarkFailed?
  }

  ghost predicate IsPingRun(run: seq<System>, steps: seq<Step>) {
    IsRun(run, steps) && forall i | 0 <= i < |steps| :: PingOnly(steps[i])
  }

  // ---------- one ping ----------

  lemma ClaimKeepsOwn(n: Node, claimant: NodeId, epoch: nat, slots: set<Slot>)
    requires n.me in n.peers
    ensures Own(ClaimSlots(n, claimant, epoch, slots)) == Own(n)
    ensures ClaimSlots(n, claimant, epoch, slots).currentEpoch == n.currentEpoch
  {
  }

  /** A ping collides: from a known master with a greater name it announces, as that master's newest
      epoch, the epoch the receiving master has itself. */
  predicate Colliding(n: Node, h: Header) {
    && h.src in n.peers && h.slaveof.None? && IsMaster(n, n.me) && n.me < h.src
    && EpochOf(n, h.src) <= h.configEpoch == Own(n)
  }

  /** Exactly such a ping changes the receiver's own config epoch; the new epoch is then above every
      epoch either side knew. */
  lemma PingMovesExactlyOnCollision(n: Node, h: Header)
    requires n.me in n.peers && h.src != n.me && Own(n) <= n.currentEpoch
    ensures var n' := ReceivePing(n, h);
            && (Own(n') != Own(n) <==> Colliding(n, h))
            && (Own(n') != Own(n) ==> Own(n') == n'.currentEpoch == Max(n.currentEpoch, h.currentEpoch) + 1)
  {
    hide ClaimSlots;
    PingMovesOnlyOnCollision(n, h);
    if h.src in n.peers {
      var n1 := SwitchRole(SeeEpochs(n, h), h);
      if n1.me in n1.peers && IsMaster(n1, h.src) {
        ClaimKeepsOwn(n1, h.src, h.configEpoch, h.slots);
        ClaimKeepsRoleOfSender(n1, h.src, h.configEpoch, h.slots);
        ClaimSparesEqual(n1, h.src, h.configEpoch, h.slots);
      }
    }
  }

  /** A claim with an epoch no greater than ours does not depose us, and a claim never makes a master
      of us. */
  lemma ClaimSparesEqual(n: Node, claimant: NodeId, epoch: nat, slots: set<Slot>)
    requires n.me in n.peers && claimant != n.me && claimant in n.peers
    ensures IsMaster(n, n.me) && epoch <= Own(n) ==> IsMaster(ClaimSlots(n, claimant, epoch, slots), n.me)
    ensures !IsMaster(n, n.me) ==> !IsMaster(ClaimSlots(n, claimant, epoch, slots), n.me)
    ensures EpochOf(ClaimSlots(n, claimant, epoch, slots), claimant) == EpochOf(n, claimant)
  {
  }

  /** One half of it, in the form the runs need. */
  lemma PingMovesOnlyOnCollision(n: Node, h: Header)
    requires n.me in n.peers && h.src != n.me && Own(n) <= n.currentEpoch
    ensures var n' := ReceivePing(n, h);
            && n'.me == n.me
            && (Own(n') != Own(n) ==>
                  && h.slaveof.None? && h.configEpoch == Own(n) && n.me < h.src
                  && Own(n') == n'.currentEpoch == Max(n.currentEpoch, h.currentEpoch) + 1)
  {
    hide ClaimSlots;
    if h.src in n.peers {
      var n1 := SwitchRole(SeeEpochs(n, h), h);
      assert n1.me == n.me && Own(n1) == Own(n) && IsMaster(n1, h.src) ==> h.slaveof.None?;
      if n1.me in n1.peers {
        ClaimKeepsOwn(n1, h.src, h.configEpoch, h.slots);
        ClaimKeepsRoleOfSender(n1, h.src, h.configEpoch, h.slots);
      }
    }
  }

  lemma ClaimKeepsRoleOfSender(n: Node, claimant: NodeId, epoch: nat, slots: set<Slot>)
    requires n.me in n.peers && claimant != n.me && claimant in n.peers
    ensures ClaimSlots(n, claimant, epoch, slots).me == n.me
    ensures IsMaster(ClaimSlots(n, claimant, epoch, slots), claimant) == IsMaster(n, claimant)
  {
  }

  // ---------- the epochs a node has announced ----------

  ghost function OwnAt(s: System, id: NodeId): nat {
    if id in s.nodes then Own(s.nodes[id]) else 0
  }

  /** Every config epoch node id has had up to state i. */
  ghost function Hist(run: seq<System>, i: nat, id: NodeId): set<nat>
    requires i < |run|
  {
    (if i == 0 then {} else Hist(run, i - 1, id)) + {OwnAt(run[i], id)}
  }

  /** How often node id's config epoch changed up to state i. */
  ghost function Moves(run: seq<System>, i: nat, id: NodeId): nat
    requires i < |run|
  {
    if i == 0 then 0
    else Moves(run, i - 1, id) + if OwnAt(run[i], id) != OwnAt(run[i - 1], id) then 1 else 0
  }

  ghost function Greater(ids: set<NodeId>, id: NodeId): set<NodeId> {
    set b | b in ids && id < b
  }

  /** Every config epoch that some node of ids has had. */
  ghost function Announced(run: seq<System>, i: nat, ids: set<NodeId>): set<nat>
    requires i < |run|
  {
    set b, e | b in ids && e in Hist(run, i, b) :: e
  }

  // ---------- the invariant of ping runs ----------

  ghost predicate PingOk(run: seq<System>, i: nat, k: nat)
    requires i < |run| && k in run[i].net
  {
    var m := run[i].net[k];
    && m.Ping? && m.h.src in run[i].nodes && m.h.src != m.h.dst
    && (m.h.slaveof.None? ==> m.h.configEpoch in Hist(run, i, m.h.src))
  }

  /** Each epoch a node has left was announced by a greater node, and its epochs only rise. */
  ghost predicate HistOk(run: seq<System>, i: nat, id: NodeId)
    requires i < |run|
  {
    && |Hist(run, i, id)| == Moves(run, i, id) + 1
    && (forall e | e in Hist(run, i, id) :: e <= OwnAt(run[i], id))
    && (forall e | e in Hist(run, i, id) && e != OwnAt(run[i], id) ::
          e in Announced(run, i, Greater(run[i].nodes.Keys, id)))
  }

  ghost predicate PingInv(run: seq<System>, i: nat)
    requires i < |run|
  {
    && (forall k | k in run[i].net :: PingOk(run, i, k))
    && (forall id | id in run[i].nodes :: HistOk(run, i, id))
  }

  /** What a step of a ping run does to the own epoch of one node. */
  ghost predicate Collides(run: seq<System>, i: nat, id: NodeId)
    requires i + 1 < |run|
  {
    && OwnAt(run[i], id) < OwnAt(run[i + 1], id)
    && exists b | b in run[i].nodes && id < b :: OwnAt(run[i], id) in Hist(run, i, b)
  }

  lemma DeliveredPing(run: seq<System>, i: nat, packet: nat, now: int, nodeTimeout: int, linkUp: bool)
    requires i + 1 < |run| && Inv(run[i]) && PingInv(run, i)
    requires IsStep(run[i], Deliver(packet, now, nodeTimeout, linkUp), run[i + 1])
    ensures run[i + 1].nodes.Keys == run[i].nodes.Keys
    ensures run[i + 1].net == run[i].net - {packet}
    ensures forall id | id in run[i].nodes ::
              OwnAt(run[i + 1], id) == OwnAt(run[i], id) || Collides(run, i, id)
  {
    hide Inv, ReceivePing, HistOk;
    var s := run[i];
    assert PingOk(run, i, packet);
    var h := s.net[packet].h;
    InvFacts(s, h.dst);
    PingMovesOnlyOnCollision(s.nodes[h.dst], h);
  }

  lemma LocalStepKeepsOwn(s: System, step: Step)
    requires WellFormed(s) && Enabled(s, step) && PingOnly(step) && !step.Deliver?
    ensures Next(s, step).nodes.Keys == s.nodes.Keys
    ensures forall id | id in s.nodes :: OwnAt(Next(s, step), id) == OwnAt(s, id)
  {
  }

  lemma StepMoves(run: seq<System>, i: nat, step: Step)
    requires i + 1 < |run| && Inv(run[i]) && PingInv(run, i)
    requires IsStep(run[i], step, run[i + 1]) && PingOnly(step)
    ensures run[i + 1].nodes.Keys == run[i].nodes.Keys
    ensures forall id | id in run[i].nodes ::
              OwnAt(run[i + 1], id) == OwnAt(run[i], id) || Collides(run, i, id)
  {
    hide Inv, PingInv, Next;
    match step {
      case Deliver(packet, now, nodeTimeout, linkUp) =>
        DeliveredPing(run, i, packet, now, nodeTimeout, linkUp);
      case _ => LocalStepKeepsOwn(run[i], step);
    }
  }

  lemma AnnouncedGrows(run: seq<System>, i: nat, ids: set<NodeId>)
    requires i + 1 < |run|
    ensures Announced(run, i, ids) <= Announced(run, i + 1, ids)
  {
    forall e | e in Announced(run, i, ids) ensures e in Announced(run, i + 1, ids) {
      var b :| b in ids && e in Hist(run, i, b);
      assert e in Hist(run, i + 1, b);
    }
  }

  lemma HistStep(run: seq<System>, i: nat, id: NodeId)
    requires i + 1 < |run| && HistOk(run, i, id) && run[i + 1].nodes.Keys == run[i].nodes.Keys
    requires OwnAt(run[i + 1], id) == OwnAt(run[i], id) || Collides(run, i, id)
    ensures HistOk(run, i + 1, id)
  {
    var ids := Greater(run[i].nodes.Keys, id);
    AnnouncedGrows(run, i, ids);
    assert OwnAt(run[i], id) in Hist(run, i, id);
    if OwnAt(run[i + 1], id) == OwnAt(run[i], id) {
      assert Hist(run, i + 1, id) == Hist(run, i, id);
    } else {
      var b :| b in run[i].nodes && id < b && OwnAt(run[i], id) in Hist(run, i, b);
      assert b in ids && OwnAt(run[i], id) in Announced(run, i, ids);
    }
  }

  lemma SentPing(s: System, who: NodeId, to: set<NodeId>, k: nat)
    requires WellFormed(s) && who in s.nodes && who !in to
    requires k in Send(s, PingsTo(s.nodes[who], to)).net
    ensures var m := Send(s, PingsTo(s.nodes[who], to)).net[k];
            if k in Numbers(s.sent, to)
            then m.Ping? && m.h.src == who && m.h.dst != who
                 && (m.h.slaveof.None? ==> m.h.configEpoch == Own(s.nodes[who]))
            else k in s.net && m == s.net[k]
  {
    assert PingsTo(s.nodes[who], to).Keys == to;
  }

  lemma SentPacketsStep(run: seq<System>, i: nat, step: Step)
    requires 0 < i < |run| && WellFormed(run[i - 1]) && PingInv(run, i - 1)
    requires IsStep(run[i - 1], step, run[i]) && step.SendPing?
    ensures forall k | k in run[i].net :: PingOk(run, i, k)
  {
    hide HistOk, Send, BuildHeader, PingsTo;
    var s, s' := run[i - 1], run[i];
    SendKeepsNodes(s, PingsTo(s.nodes[step.who], step.to));
    forall k | k in s'.net ensures PingOk(run, i, k) {
      SentPing(s, step.who, step.to, k);
      assert Own(s.nodes[step.who]) in Hist(run, i, step.who) by {
        assert OwnAt(s, step.who) == OwnAt(s', step.who);
      }
      assert k !in Numbers(s.sent, step.to) ==> PingOk(run, i - 1, k);
    }
  }

  lemma SendKeepsNodes(s: System, out: map<NodeId, Msg>)
    ensures Send(s, out).nodes == s.nodes
  {
  }

  lemma PacketsStep(run: seq<System>, i: nat, step: Step)
    requires 0 < i < |run| && Inv(run[i - 1]) && PingInv(run, i - 1)
    requires IsStep(run[i - 1], step, run[i]) && PingOnly(step)
    requires run[i].nodes.Keys == run[i - 1].nodes.Keys
    ensures forall k | k in run[i].net :: PingOk(run, i, k)
  {
    hide Inv, HistOk, DeliverMsg, Send;
    var s, s' := run[i - 1], run[i];
    if step.SendPing? {
      SentPacketsStep(run, i, step);
    } else {
      if step.Deliver? {
        DeliveredPing(run, i - 1, step.packet, step.now, step.nodeTimeout, step.linkUp);
      }
      forall k | k in s'.net ensures PingOk(run, i, k) { assert PingOk(run, i - 1, k); }
    }
  }

  lemma PingInvStep(run: seq<System>, i: nat, step: Step)
    requires 0 < i < |run| && Inv(run[i - 1]) && PingInv(run, i - 1)
    requires IsStep(run[i - 1], step, run[i]) && PingOnly(step)
    ensures run[i].nodes.Keys == run[i - 1].nodes.Keys
    ensures PingInv(run, i)
  {
    hide Inv, IsStep, HistOk, PingOk, PingOnly;
    StepMoves(run, i - 1, step);
    PacketsStep(run, i, step);
    forall id | id in run[i].nodes ensures HistOk(run, i, id) { HistStep(run, i - 1, id); }
  }

  lemma {:induction false} PingRunHasInv(run: seq<System>, steps: seq<Step>, i: nat)
    requires IsPingRun(run, steps) && i < |run|
    ensures PingInv(run, i) && run[i].nodes.Keys == run[0].nodes.Keys
  {
    hide Inv, IsStep, PingInv, Init;
    if i == 0 {
      PingInvAtStart(run);
    } else {
      PingRunHasInv(run, steps, i - 1);
      RunHasInv(run, steps, i - 1);
      assert IsStep(run[i - 1], steps[i - 1], run[i]);
      PingInvStep(run, i, steps[i - 1]);
    }
  }

  lemma PingInvAtStart(run: seq<System>)
    requires 0 < |run| && Init(run[0])
    ensures PingInv(run, 0)
  {
    forall id | id in run[0].nodes ensures HistOk(run, 0, id) {
      assert Hist(run, 0, id) == {OwnAt(run[0], id)};
    }
  }

  // ---------- the bound ----------

  ghost predicate UpwardClosed(ids: set<NodeId>, all: set<NodeId>) {
    ids <= all && forall a, b | a in ids && b in all && a < b :: b in ids
  }

  ghost predicate IsLeast(least: NodeId, ids: set<NodeId>) { least in ids && forall b | b in ids :: least <= b }

  lemma {:induction false} LeastExists(ids: set<NodeId>)
    requires ids != {}
    ensures exists least :: IsLeast(least, ids)
    decreases ids
  {
    var x :| x in ids;
    if ids - {x} == {} {
      assert ids == {x};
      assert IsLeast(x, ids);
    } else {
      LeastExists(ids - {x});
      var y :| IsLeast(y, ids - {x});
      assert forall b | b in ids :: b == x || b in ids - {x};
      assert IsLeast(if x <= y then x else y, ids);
    }
  }

  ghost function Least(ids: set<NodeId>): (least: NodeId)
    requires ids != {}
    ensures least in ids && forall b | b in ids :: least <= b
  {
    LeastExists(ids);
    var least :| IsLeast(least, ids);
    least
  }

  /** Without its least name an upward closed set is what lies above that name. */
  lemma WithoutLeast(ids: set<NodeId>, all: set<NodeId>)
    requires ids != {} && UpwardClosed(ids, all)
    ensures UpwardClosed(ids - {Least(ids)}, all)
    ensures Greater(all, Least(ids)) == ids - {Least(ids)}
  {
    hide Least;
  }

  /** The k greatest names together never announce more than k different epochs. */
  lemma {:induction false} FewEpochs(run: seq<System>, i: nat, ids: set<NodeId>)
    requires i < |run| && PingInv(run, i) && UpwardClosed(ids, run[i].nodes.Keys)
    ensures |Announced(run, i, ids)| <= |ids|
    decreases |ids|
  {
    if ids == {} {
      assert Announced(run, i, ids) == {};
    } else {
      var least := Least(ids);
      var rest := ids - {least};
      FewEpochs(run, i, rest);
      assert HistOk(run, i, least);
      assert Greater(run[i].nodes.Keys, least) == rest;
      forall e | e in Announced(run, i, ids)
        ensures e in Announced(run, i, rest) + {OwnAt(run[i], least)}
      {
        var b :| b in ids && e in Hist(run, i, b);
        assert b == least || b in rest;
      }
      SubsetSize(Announced(run, i, ids), Announced(run, i, rest) + {OwnAt(run[i], least)});
    }
  }

  /** In a run of pings, a node changes its config epoch at most once per greater-named node. */
  lemma CollisionsEnd(run: seq<System>, steps: seq<Step>, i: nat, id: NodeId)
    requires IsPingRun(run, steps) && i < |run| && id in run[i].nodes
    ensures Moves(run, i, id) <= |Greater(run[i].nodes.Keys, id)|
  {
    hide IsPingRun;
    PingRunHasInv(run, steps, i);
    var ids := Greater(run[i].nodes.Keys, id);
    FewEpochs(run, i, ids);
    assert HistOk(run, i, id);
    assert Hist(run, i, id) <= Announced(run, i, ids) + {OwnAt(run[i], id)};
    SubsetSize(Hist(run, i, id), Announced(run, i, ids) + {OwnAt(run[i], id)});
  }

  lemma GreatestNeverMoves(run: seq<System>, steps: seq<Step>, i: nat, id: NodeId)
    requires IsPingRun(run, steps) && i < |run| && id in run[i].nodes
    requires forall b | b in run[i].nodes :: b <= id
    ensures Moves(run, i, id) == 0 && OwnAt(run[i], id) == OwnAt(run[0], id)
  {
    hide IsPingRun;
    CollisionsEnd(run, steps, i, id);
    assert Greater(run[i].nodes.Keys, id) == {};
    NoMovesNoChange(run, i, id);
  }

  lemma {:induction false} NoMovesNoChange(run: seq<System>, i: nat, id: NodeId)
    requires i < |run| && Moves(run, i, id) == 0
    ensures OwnAt(run[i], id) == OwnAt(run[0], id)
  {
    if i > 0 { NoMovesNoChange(run, i - 1, id); }
  }

  ghost function TotalMoves(run: seq<System>, i: nat, ids: set<NodeId>): nat
    requires i < |run|
    decreases |ids|
  {
    if ids == {} then 0
    else TotalMoves(run, i, ids - {Least(ids)}) + Moves(run, i, Least(ids))
  }

  lemma InAll(ids: set<NodeId>, all: set<NodeId>, id: NodeId)
    requires UpwardClosed(ids, all) && id in ids
    ensures id in all
  {
  }

  lemma Triangle(k: nat)
    ensures k * (k - 1) + 2 * k == (k + 1) * k
  {
  }

  lemma {:induction false} MovesOfGreatest(run: seq<System>, steps: seq<Step>, i: nat, ids: set<NodeId>)
    requires IsPingRun(run, steps) && i < |run| && UpwardClosed(ids, run[i].nodes.Keys)
    ensures 2 * TotalMoves(run, i, ids) <= |ids| * (|ids| - 1)
    decreases |ids|
  {
    hide IsPingRun, Moves, UpwardClosed, Greater, Least;
    if ids != {} {
      var least := Least(ids);
      var rest := ids - {least};
      WithoutLeast(ids, run[i].nodes.Keys);
      InAll(ids, run[i].nodes.Keys, least);
      MovesOfGreatest(run, steps, i, rest);
      CollisionsEnd(run, steps, i, least);
      Triangle(|rest|);
    }
  }

  /** Whatever the order, delay and loss of pings, N nodes make at most N(N-1)/2 collision moves. */
  lemma CollisionsAreFinite(run: seq<System>, steps: seq<Step>, i: nat)
    requires IsPingRun(run, steps) && i < |run|
    ensures var n := |run[i].nodes.Keys|; 2 * TotalMoves(run, i, run[i].nodes.Keys) <= n * (n - 1)
  {
    hide IsPingRun;
    MovesOfGreatest(run, steps, i, run[i].nodes.Keys);
  }

  // ---------- nobody is ahead of a master ----------

  /** The node announces its own epoch, not a master's. */
  predicate Announces(n: Node) {
    n.me in n.peers && !(n.peers[n.me].role.Replica? && n.peers[n.me].role.of.Some?)
  }

  /** No node believes that a master has a config epoch beyond the one it has. */
  ghost predicate NoneAhead(s: System) {
    forall a, b | a in s.nodes && b in s.nodes && Announces(s.nodes[b]) :: EpochOf(s.nodes[a], b) <= Own(s.nodes[b])
  }

  /** A ping in flight from a master announces it as one, with an epoch it has or had. */
  ghost predicate PingBehind(s: System, k: nat)
    requires k in s.net
  {
    var h := s.net[k].h;
    h.src in s.nodes && Announces(s.nodes[h.src]) ==> h.slaveof.None? && h.configEpoch <= Own(s.nodes[h.src])
  }

  ghost predicate Behind(s: System) {
    NoneAhead(s) && forall k | k in s.net :: PingBehind(s, k)
  }

  lemma ClaimViews(n: Node, claimant: NodeId, epoch: nat, slots: set<Slot>)
    requires n.me in n.peers
    ensures var n' := ClaimSlots(n, claimant, epoch, slots);
            && n'.me == n.me && (Announces(n') ==> Announces(n))
            && forall b :: EpochOf(n', b) == EpochOf(n, b)
  {
  }

  lemma PingViews(n: Node, h: Header)
    requires n.me in n.peers && h.src != n.me && Own(n) <= n.currentEpoch
    ensures var n' := ReceivePing(n, h);
            && n'.me == n.me && (Announces(n') ==> Announces(n)) && Own(n) <= Own(n')
            && forall b | b != n.me :: EpochOf(n', b) <= Max(EpochOf(n, b), if b == h.src then h.configEpoch else 0)
  {
    hide ClaimSlots;
    PingMovesOnlyOnCollision(n, h);
    if h.src in n.peers {
      var n1 := SwitchRole(SeeEpochs(n, h), h);
      ClaimViews(n1, h.src, h.configEpoch, h.slots);
    }
  }

  /** A node may change as long as it does not begin to announce itself, its own epoch does not fall and
      it is not ahead of anyone. */
  lemma NodeKeepsBehind(s: System, id: NodeId, n: Node)
    requires Behind(s) && id in s.nodes && n.me == id == s.nodes[id].me
    requires (Announces(n) ==> Announces(s.nodes[id])) && Own(s.nodes[id]) <= Own(n)
    requires forall b | b in s.nodes && b != id && Announces(s.nodes[b]) :: EpochOf(n, b) <= Own(s.nodes[b])
    ensures Behind(SetNode(s, id, n))
  {
    hide Announces;
    var s' := SetNode(s, id, n);
    forall k | k in s'.net ensures PingBehind(s', k) { assert PingBehind(s, k); }
  }

  lemma DropKeepsBehind(s: System, packet: nat)
    requires Behind(s)
    ensures Behind(s.(net := s.net - {packet}))
  {
    var s' := s.(net := s.net - {packet});
    forall k | k in s'.net ensures PingBehind(s', k) { assert PingBehind(s, k); }
  }

  lemma PingKeepsBehind(s: System, packet: nat)
    requires WellFormed(s) && Behind(s) && packet in s.net && s.net[packet].Ping?
    requires var h := s.net[packet].h; h.dst in s.nodes && h.src in s.nodes && h.src != h.dst
                                       && Own(s.nodes[h.dst]) <= s.nodes[h.dst].currentEpoch
    ensures var h := s.net[packet].h;
            Behind(SetNode(s.(net := s.net - {packet}), h.dst, ReceivePing(s.nodes[h.dst], h)))
  {
    hide ReceivePing, Announces;
    var h := s.net[packet].h;
    var n' := ReceivePing(s.nodes[h.dst], h);
    PingViews(s.nodes[h.dst], h);
    assert PingBehind(s, packet);
    DropKeepsBehind(s, packet);
    NodeKeepsBehind(s.(net := s.net - {packet}), h.dst, n');
  }

  lemma DeliveryKeepsBehind(run: seq<System>, i: nat, step: Step)
    requires i + 1 < |run| && Inv(run[i]) && PingInv(run, i) && Behind(run[i])
    requires IsStep(run[i], step, run[i + 1]) && step.Deliver?
    ensures Behind(run[i + 1])
  {
    hide Inv, ReceivePing, HistOk, Behind;
    assert PingOk(run, i, step.packet);
    InvOwn(run[i], run[i].net[step.packet].h.dst);
    PingKeepsBehind(run[i], step.packet);
  }

  lemma InvOwn(s: System, id: NodeId)
    requires Inv(s) && id in s.nodes
    ensures Own(s.nodes[id]) <= s.nodes[id].currentEpoch && s.nodes[id].me == id
  {
    InvFacts(s, id);
  }

  lemma LocalKeepsBehind(s: System, step: Step)
    requires WellFormed(s) && Enabled(s, step) && Behind(s) && (step.RefreshState? || step.MarkFailed?)
    ensures Behind(Next(s, step))
  {
    var n := s.nodes[step.who];
    var n' := if step.MarkFailed? then SetFailed(n, step.about, step.failed) else UpdateState(n);
    assert forall b :: EpochOf(n', b) == EpochOf(n, b);
    NodeKeepsBehind(s, step.who, n');
  }

  lemma SendKeepsBehind(s: System, who: NodeId, to: set<NodeId>)
    requires WellFormed(s) && who in s.nodes && who !in to && Behind(s)
    ensures Behind(Send(s, PingsTo(s.nodes[who], to)))
  {
    var s' := Send(s, PingsTo(s.nodes[who], to));
    forall k | k in s'.net ensures PingBehind(s', k) {
      SentPing(s, who, to, k);
      if k in Numbers(s.sent, to) {
        var out := PingsTo(s.nodes[who], to);
        assert out.Keys == to;
        assert s'.net[k] == out[k - s.sent] == Ping(BuildHeader(s.nodes[who], k - s.sent, false));
      } else {
        assert PingBehind(s, k);
      }
    }
  }

  lemma BehindStep(run: seq<System>, i: nat, step: Step)
    requires i + 1 < |run| && Inv(run[i]) && PingInv(run, i) && Behind(run[i])
    requires IsStep(run[i], step, run[i + 1]) && PingOnly(step)
    ensures Behind(run[i + 1])
  {
    hide Inv, PingInv, Send, PingsTo, Behind, DeliverMsg;
    var s := run[i];
    match step {
      case SendPing(who, to) => SendKeepsBehind(s, who, to);
      case Drop(packet) => DropKeepsBehind(s, packet);
      case Deliver(_, _, _, _) => DeliveryKeepsBehind(run, i, step);
      case _ => LocalKeepsBehind(s, step);
    }
  }

  /** If no node starts out ahead of a master, none is ever ahead of one. */
  lemma {:induction false} NeverAhead(run: seq<System>, steps: seq<Step>, i: nat)
    requires IsPingRun(run, steps) && NoneAhead(run[0]) && i < |run|
    ensures Behind(run[i])
  {
    hide Inv, IsStep, PingInv, PingOnly, NoneAhead;
    if i > 0 {
      NeverAhead(run, steps, i - 1);
      PingRunHasInv(run, steps, i - 1);
      RunHasInv(run, steps, i - 1);
      assert IsStep(run[i - 1], steps[i - 1], run[i]);
      BehindStep(run, i - 1, steps[i - 1]);
    }
  }

  // ---------- progress ----------

  /** Node a's config epoch after a fresh ping from b. */
  ghost function OwnAfterPing(s: System, b: NodeId, a: NodeId): nat
    requires WellFormed(s) && a in s.nodes && b in s.nodes
  {
    Own(ReceivePing(s.nodes[a], BuildHeader(s.nodes[b], a, false)))
  }

  /** Masters a and b share a config epoch, and a, the smaller name, knows b. */
  ghost predicate Collision(s: System, a: NodeId, b: NodeId) {
    && a in s.nodes && b in s.nodes && a < b && b in s.nodes[a].peers
    && IsMaster(s.nodes[a], a) && Announces(s.nodes[b])
    && Own(s.nodes[a]) == Own(s.nodes[b])
  }

  /** No ping that could be sent now moves its receiver. */
  ghost predicate Settled(s: System)
    requires WellFormed(s)
  {
    forall a, b | a in s.nodes && b in s.nodes && a != b :: OwnAfterPing(s, b, a) == Own(s.nodes[a])
  }

  lemma PingMovesCollision(s: System, a: NodeId, b: NodeId)
    requires Inv(s) && WellFormed(s) && NoneAhead(s) && a in s.nodes && b in s.nodes && a != b
    ensures OwnAfterPing(s, b, a) != Own(s.nodes[a]) <==> Collision(s, a, b)
    ensures Own(s.nodes[a]) <= OwnAfterPing(s, b, a)
  {
    hide Inv, ReceivePing;
    InvOwn(s, a);
    var h := BuildHeader(s.nodes[b], a, false);
    PingMovesExactlyOnCollision(s.nodes[a], h);
  }

  /** At every point of every run of pings from a start in which nobody is ahead of a master, a fresh
      ping moves its receiver exactly if the two collide.  So the runs that have settled are exactly
      those without a collision left. */
  lemma SettledExactly(run: seq<System>, steps: seq<Step>, i: nat)
    requires IsPingRun(run, steps) && NoneAhead(run[0]) && i < |run|
    ensures WellFormed(run[i])
    ensures forall a, b | a in run[i].nodes && b in run[i].nodes && a != b ::
              OwnAfterPing(run[i], b, a) != Own(run[i].nodes[a]) <==> Collision(run[i], a, b)
    ensures Settled(run[i]) <==> forall a, b :: !Collision(run[i], a, b)
  {
    hide Inv, IsRun, PingOnly, NoneAhead, OwnAfterPing, Collision;
    RunHasInv(run, steps, i);
    InvIsWellFormed(run[i]);
    NeverAhead(run, steps, i);
    forall a, b | a in run[i].nodes && b in run[i].nodes && a != b
      ensures OwnAfterPing(run[i], b, a) != Own(run[i].nodes[a]) <==> Collision(run[i], a, b)
    {
      PingMovesCollision(run[i], a, b);
    }
    CollisionIsProper(run[i]);
  }

  lemma CollisionIsProper(s: System)
    ensures forall a, b | Collision(s, a, b) :: a in s.nodes && b in s.nodes && a != b
  {
  }

  /** Once such a run has settled, all masters that know each other have different config epochs. */
  lemma SettledMastersDiffer(run: seq<System>, steps: seq<Step>, i: nat, a: NodeId, b: NodeId)
    requires IsPingRun(run, steps) && NoneAhead(run[0]) && i < |run| && WellFormed(run[i]) && Settled(run[i])
    requires a in run[i].nodes && b in run[i].nodes && a != b
    requires IsMaster(run[i].nodes[a], a) && IsMaster(run[i].nodes[b], b)
    requires b in run[i].nodes[a].peers && a in run[i].nodes[b].peers
    ensures Own(run[i].nodes[a]) != Own(run[i].nodes[b])
  {
    hide IsPingRun, Settled;
    SettledExactly(run, steps, i);
    assert !Collision(run[i], a, b) && !Collision(run[i], b, a);
  }

  /** The condition on the start is needed: here node 0 believes that node 1 has epoch 9.  Both are
      masters with epoch 5, and no ping moves either. */
  lemma StuckCollision() returns (s: System)
    ensures Init(s) && Settled(s) && Collision(s, 0, 1) && !NoneAhead(s)
    ensures IsMaster(s.nodes[1], 1) && 0 in s.nodes[1].peers
  {
    var five, nine := Peer(5, Master, false, 0), Peer(9, Master, false, 0);
    var auth := Auth(0, 0, false, 0, 0);
    var a := Node(0, 9, 0, map[0 := five, 1 := nine], map[], {}, 0, auth);
    var b := Node(1, 9, 0, map[0 := five, 1 := five], map[], {}, 0, auth);
    s := System(map[0 := a, 1 := b], map[], 0, map[], map[0 := {}, 1 := {}], map[0 := 0, 1 := 0], {});
    StuckPing(a, b);
    assert EpochOf(s.nodes[0], 1) == 9 && Own(s.nodes[1]) == 5;
  }

  lemma StuckPing(a: Node, b: Node)
    requires a.me == 0 && b.me == 1 && a.owner == b.owner == map[]
    requires a.peers == map[0 := Peer(5, Master, false, 0), 1 := Peer(9, Master, false, 0)]
    requires b.peers == map[0 := Peer(5, Master, false, 0), 1 := Peer(5, Master, false, 0)]
    requires a.currentEpoch == b.currentEpoch == 9
    ensures Own(ReceivePing(a, BuildHeader(b, 0, false))) == Own(a)
    ensures Own(ReceivePing(b, BuildHeader(a, 1, false))) == Own(b)
  {
    PingMovesExactlyOnCollision(a, BuildHeader(b, 0, false));
    PingMovesExactlyOnCollision(b, BuildHeader(a, 1, false));
  }

  // ---------- every run can be carried on until it has settled ----------

  lemma FreshPing(s: System, a: NodeId, b: NodeId) returns (s1: System, s2: System)
    requires Inv(s) && WellFormed(s) && a in s.nodes && b in s.nodes && a != b
    ensures IsStep(s, SendPing(b, {a}), s1) && IsStep(s1, Deliver(s.sent + a, 0, 0, true), s2)
    ensures a in s2.nodes && OwnAt(s2, a) == OwnAfterPing(s, b, a)
  {
    hide Inv;
    s1 := Next(s, SendPing(b, {a}));
    assert PingsTo(s.nodes[b], {a}).Keys == {a};
    assert s.sent + a in Numbers(s.sent, {a});
    assert s1.net[s.sent + a] == Ping(BuildHeader(s.nodes[b], a, false));
    s2 := Next(s1, Deliver(s.sent + a, 0, 0, true));
  }

  lemma MovesGrow(run: seq<System>, more: seq<System>, i: nat, id: NodeId)
    requires i < |run|
    ensures Moves(run + more, i, id) == Moves(run, i, id)
  {
  }

  lemma {:induction false} TotalOf(run: seq<System>, i: nat, run': seq<System>, i': nat, ids: set<NodeId>, id: NodeId)
    requires i < |run| && i' < |run'| && forall x | x in ids :: Moves(run, i, x) <= Moves(run', i', x)
    ensures TotalMoves(run, i, ids) <= TotalMoves(run', i', ids)
    ensures id in ids && Moves(run, i, id) < Moves(run', i', id) ==> TotalMoves(run, i, ids) < TotalMoves(run', i', ids)
    decreases |ids|
  {
    hide Moves, Least;
    if ids != {} { TotalOf(run, i, run', i', ids - {Least(ids)}, id); }
  }

  lemma RunLength(run: seq<System>, steps: seq<Step>)
    requires IsPingRun(run, steps)
    ensures |run| == |steps| + 1
  {
  }

  lemma Continued(run: seq<System>, steps: seq<Step>, s1: System, step1: Step, s2: System, step2: Step)
    requires IsPingRun(run, steps) && PingOnly(step1) && PingOnly(step2)
    requires IsStep(run[|steps|], step1, s1) && IsStep(s1, step2, s2)
    ensures IsPingRun(run + [s1, s2], steps + [step1, step2])
  {
    hide IsStep, PingOnly, Init;
    var run', steps' := run + [s1, s2], steps + [step1, step2];
    forall i | 0 <= i < |steps'| ensures IsStep(run'[i], steps'[i], run'[i + 1]) && PingOnly(steps'[i]) {
      if i < |steps| { assert run'[i] == run[i] && run'[i + 1] == run[i + 1] && steps'[i] == steps[i]; }
    }
  }

  lemma Unsettled(s: System) returns (a: NodeId, b: NodeId)
    requires WellFormed(s) && !Settled(s)
    ensures a in s.nodes && b in s.nodes && a != b && OwnAfterPing(s, b, a) != OwnAt(s, a)
  {
    hide OwnAfterPing;
    a, b :| a in s.nodes && b in s.nodes && a != b && OwnAfterPing(s, b, a) != Own(s.nodes[a]);
  }

  lemma TotalRises(run: seq<System>, more: seq<System>, i: nat, ids: set<NodeId>, a: NodeId)
    requires |run| == i + 1 && |more| == 2 && a in ids && OwnAt(more[1], a) != OwnAt(run[i], a)
    ensures TotalMoves(run, i, ids) < TotalMoves(run + more, i + 2, ids)
  {
    hide OwnAt, Moves, TotalMoves;
    MoreMoves(run, more, i, a);
    forall x | x in ids ensures Moves(run, i, x) <= Moves(run + more, i + 2, x) { FewerBefore(run, more, i, x); }
    TotalOf(run, i, run + more, i + 2, ids, a);
  }

  /** A run that has not settled goes on with a ping that moves a node. */
  lemma OneMoreMove(run: seq<System>, steps: seq<Step>) returns (run': seq<System>, steps': seq<Step>)
    requires IsPingRun(run, steps) && WellFormed(run[|steps|]) && !Settled(run[|steps|])
    ensures IsPingRun(run', steps') && |steps'| == |steps| + 2 && |run'| == |run| + 2 && run <= run' && steps <= steps'
    ensures run'[|steps'|].nodes.Keys == run[|steps|].nodes.Keys
    ensures var ids := run[|steps|].nodes.Keys; TotalMoves(run, |steps|, ids) < TotalMoves(run', |steps'|, ids)
  {
    hide Inv, IsStep, OwnAt, OwnAfterPing, IsPingRun, TotalMoves, Settled, WellFormed;
    var i := |steps|;
    RunLength(run, steps);
    var s := run[i];
    var a, b := Unsettled(s);
    SameKeys(run, steps, i);
    var s1, s2 := FreshPing(s, a, b);
    TotalRises(run, [s1, s2], i, s.nodes.Keys, a);
    Continued(run, steps, s1, SendPing(b, {a}), s2, Deliver(s.sent + a, 0, 0, true));
    run', steps' := run + [s1, s2], steps + [SendPing(b, {a}), Deliver(s.sent + a, 0, 0, true)];
    SameKeys(run', steps', i + 2);
    SameKeys(run, steps, i);
  }

  lemma SameKeys(run: seq<System>, steps: seq<Step>, i: nat)
    requires IsPingRun(run, steps) && i < |run|
    ensures Inv(run[i]) && run[i].nodes.Keys == run[0].nodes.Keys
  {
    hide Inv, IsRun, PingInv;
    RunHasInv(run, steps, i);
    PingRunHasInv(run, steps, i);
  }

  lemma FewerBefore(run: seq<System>, more: seq<System>, i: nat, id: NodeId)
    requires |run| == i + 1 && |more| == 2
    ensures Moves(run, i, id) <= Moves(run + more, i + 2, id)
  {
    MovesGrow(run, more, i, id);
  }

  lemma MoreMoves(run: seq<System>, more: seq<System>, i: nat, id: NodeId)
    requires |run| == i + 1 && |more| == 2 && OwnAt(more[1], id) != OwnAt(run[i], id)
    ensures Moves(run, i, id) < Moves(run + more, i + 2, id)
  {
    MovesGrow(run, more, i, id);
    var run' := run + more;
    assert run'[i] == run[i] && run'[i + 1] == more[0] && run'[i + 2] == more[1];
  }

  /** How many moves the bound still allows, doubled. */
  ghost function Left(run: seq<System>, steps: seq<Step>): int
    requires |run| == |steps| + 1
  {
    var ids := run[|steps|].nodes.Keys;
    |ids| * (|ids| - 1) - 2 * TotalMoves(run, |steps|, ids)
  }

  lemma LeftFalls(run: seq<System>, steps: seq<Step>, run': seq<System>, steps': seq<Step>)
    requires IsPingRun(run', steps') && |run| == |steps| + 1
    requires run'[|steps'|].nodes.Keys == run[|steps|].nodes.Keys
    requires var ids := run[|steps|].nodes.Keys; TotalMoves(run, |steps|, ids) < TotalMoves(run', |steps'|, ids)
    ensures 0 <= Left(run', steps') < Left(run, steps)
  {
    hide IsRun, PingOnly, TotalMoves;
    RunLength(run', steps');
    CollisionsAreFinite(run', steps', |steps'|);
  }

  /** Collisions resolve themselves: from any point of any such run, pings alone lead to a state in
      which no ping moves anyone. */
  lemma {:induction false} CollisionsResolve(run: seq<System>, steps: seq<Step>)
    returns (run': seq<System>, steps': seq<Step>)
    requires IsPingRun(run, steps) && NoneAhead(run[0])
    ensures IsPingRun(run', steps') && run <= run' && steps <= steps'
    ensures WellFormed(run'[|steps'|]) && Settled(run'[|steps'|])
    decreases Left(run, steps)
  {
    hide IsRun, PingOnly, NoneAhead, Settled, TotalMoves, WellFormed, Left;
    RunLength(run, steps);
    SettledExactly(run, steps, |steps|);
    run', steps' := run, steps;
    if !Settled(run[|steps|]) {
      run', steps' := OneMoreMove(run, steps);
      LeftFalls(run, steps, run', steps');
      run', steps' := CollisionsResolve(run', steps');
    }
  }
}
