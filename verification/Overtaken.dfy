/** An election overtaken by its master: the master's config epoch rises after the votes were asked for.
    The winner then takes over slots with a smaller epoch than their owner had, and other nodes have heard
    it announce a greater epoch than it ends up with.

    Node 0 is a master with slot 0 and the whole electorate, node 1 a master without slots, and node 2 a
    replica of node 0 in a manual failover. */
module Overtaken {
  import opened Common
  import opened ClusterState
  import opened ClusterProtocol
  import opened ElectionSafety
  import opened ElectionSplit
  import opened EpochCollision
  import opened SlotClaims

  function Peers3(e0: nat, e1: nat, e2: nat, voted: int): map<NodeId, Peer> {
    map[0 := Peer(e0, Master, false, voted), 1 := Peer(e1, Master, false, 0), 2 := Peer(e2, Replica(Some(0)), false, 0)]
  }

  function View3(id: NodeId, epoch: nat, lastVote: nat, peers: map<NodeId, Peer>, auth: Auth): Node {
    Node(id, epoch, lastVote, peers, map[0 := 0], {}, 1, auth)
  }

  ghost function Sys(n0: Node, n1: Node, n2: Node, net: map<nat, Msg>, sent: nat, votes: map<(NodeId, nat), Vote>,
                     b2: set<NodeId>): System
  {
    System(map[0 := n0, 1 := n1, 2 := n2], net, sent, votes, map[0 := {}, 1 := {}, 2 := b2],
           map[0 := 0, 1 := 0, 2 := 0], {})
  }

  // ---------- the nodes as they change ----------

  function Zero(k: nat): Node {
    if k == 0 then View3(0, 0, 0, Peers3(0, 0, 0, 0), Idle0())
    else if k == 1 then View3(0, 1, 1, Peers3(0, 0, 0, 10000), Idle0())
    else View3(0, 2, 1, Peers3(2, 0, 0, 10000), Idle0())
  }

  function One(k: nat): Node {
    if k == 0 then View3(1, 0, 0, Peers3(0, 0, 0, 0), Idle0())
    else if k == 1 then View3(1, 1, 0, Peers3(0, 1, 0, 0), Idle0())
    else View3(1, 2, 0, Peers3(0, 1, 2, 0), Idle0())
  }

  function Two(k: nat): Node {
    if k == 0 then View3(2, 0, 0, Peers3(0, 0, 0, 0), Auth(10000, 0, false, 0, 0))
    else if k == 1 then View3(2, 1, 0, Peers3(0, 0, 0, 0), Auth(10000, 0, true, 0, 1))
    else if k == 2 then View3(2, 2, 0, Peers3(2, 0, 0, 0), Auth(10000, 0, true, 0, 1))
    else View3(2, 2, 0, Peers3(2, 0, 0, 0), Auth(10000, 1, true, 0, 1))
  }

  const REQUEST := Header(2, 0, 1, 0, Some(0), {0}, true)
  const ACK := Header(0, 2, 1, 0, None, {0}, false)
  const RISEN := Header(0, 2, 2, 2, None, {0}, false)
  const ECHO := Header(2, 1, 2, 2, Some(0), {0}, false)

  /** The replica as the winner of epoch 1. */
  function Winner(): Node {
    Node(2, 2, 0, Peers3(2, 0, 0, 0)[2 := Peer(1, Master, false, 0)], map[0 := 2], {}, 1, Auth(10000, 1, true, 0, 1))
  }

  lemma MaxIs(n: Node)
    requires EpochOf(n, n.me) == 0 && n.me in n.peers
    ensures Bump(n).0 == WithMyEpoch(n.(currentEpoch := n.currentEpoch + 1), n.currentEpoch + 1)
  {
  }

  lemma Bumps()
    ensures Bump(One(0)).0 == One(1) && Bump(Zero(1)).0 == Zero(2)
  {
    MaxIs(One(0));
    MaxIs(Zero(1));
    assert Peers3(0, 0, 0, 0)[1 := Peer(1, Master, false, 0)] == Peers3(0, 1, 0, 0);
    assert Peers3(0, 0, 0, 10000)[0 := Peer(2, Master, false, 10000)] == Peers3(2, 0, 0, 10000);
  }

  lemma Served(id: NodeId, epoch: nat, lastVote: nat, peers: map<NodeId, Peer>, auth: Auth)
    ensures Serves(View3(id, epoch, lastVote, peers, auth), 0)
  {
    assert View3(id, epoch, lastVote, peers, auth).owner[0] == 0;
  }

  lemma Asks()
    ensures HandleFailover(Two(0), At(10000)) == (Two(1), Requested)
    ensures BuildHeader(Two(1), 0, true) == REQUEST
  {
    Served(2, 0, 0, Peers3(0, 0, 0, 0), Auth(10000, 0, false, 0, 0));
    assert SlotsOf(Two(1), 0) == {0};
  }

  lemma Grants()
    ensures ReceiveRequest(Zero(0), REQUEST, 10000, 1000) == (Zero(1), true)
    ensures BuildHeader(Zero(1), 2, false) == ACK
  {
    var p := Peers3(0, 0, 0, 0);
    assert p[2 := p[2].(configEpoch := 0)] == p;
    var n := View3(0, 1, 0, p, Idle0());
    assert SeeEpochs(Zero(0), REQUEST) == n;
    Served(0, 1, 0, p, Idle0());
    assert GrantsVote(n, REQUEST, 10000, 1000);
    assert p[0 := p[0].(votedTime := 10000)] == Peers3(0, 0, 0, 10000);
    assert SlotsOf(Zero(1), 0) == {0};
  }

  lemma Announce()
    ensures BuildHeader(Zero(2), 2, false) == RISEN && BuildHeader(Two(2), 1, false) == ECHO
  {
    assert SlotsOf(Zero(2), 0) == {0} && SlotsOf(Two(2), 0) == {0};
  }

  lemma HearsRise()
    ensures ReceivePing(Two(1), RISEN) == Two(2)
  {
    var p := Peers3(0, 0, 0, 0);
    assert p[0 := p[0].(configEpoch := 2)] == Peers3(2, 0, 0, 0);
    assert Peers3(2, 0, 0, 0)[0 := Peer(2, Master, false, 0)] == Peers3(2, 0, 0, 0);
    assert SlotsOf(Two(2), 0) == {0};
  }

  lemma HearsEcho()
    ensures ReceivePing(One(1), ECHO) == One(2)
  {
    var p := Peers3(0, 1, 0, 0);
    assert p[2 := p[2].(configEpoch := 2)] == Peers3(0, 1, 2, 0);
    assert Peers3(0, 1, 2, 0)[2 := Peer(2, Replica(Some(0)), false, 0)] == Peers3(0, 1, 2, 0);
  }

  lemma HearsAck()
    ensures CountsAck(SeeEpochs(Two(2), ACK), ACK) && ReceiveAck(Two(2), ACK) == Two(3)
  {
    var p := Peers3(2, 0, 0, 0);
    assert p[0 := p[0].(configEpoch := 2)] == p;
    assert SeeEpochs(Two(2), ACK) == Two(2);
    Served(2, 2, 0, p, Auth(10000, 0, true, 0, 1));
  }

  lemma WinsLate()
    ensures HandleFailover(Two(3), At(10000)) == (Winner(), Won)
  {
    var p := Peers3(2, 0, 0, 0);
    Served(2, 2, 0, p, Auth(10000, 1, true, 0, 1));
    assert p[2 := Peer(1, Replica(Some(0)), false, 0)][2 := Peer(1, Master, false, 0)]
           == p[2 := Peer(1, Master, false, 0)];
    assert Reowned(map[0 := 0], 0, 2) == map[0 := 2];
  }

  // ---------- the run ----------

  ghost function Stage(k: nat): System {
    match k
    case 0 => Sys(Zero(0), One(0), Two(0), map[], 0, map[], {})
    case 1 => Sys(Zero(0), One(1), Two(0), map[], 0, map[], {})
    case 2 => Sys(Zero(0), One(1), Two(1), map[0 := AuthRequest(REQUEST)], 1, map[], {})
    case 3 => Sys(Zero(1), One(1), Two(1), map[3 := AuthAck(ACK)], 4, map[(0, 1) := Vote(2, 3)], {})
    case 4 => Sys(Zero(2), One(1), Two(1), map[3 := AuthAck(ACK)], 4, map[(0, 1) := Vote(2, 3)], {})
    case 5 => Sys(Zero(2), One(1), Two(1), map[3 := AuthAck(ACK), 6 := Ping(RISEN)], 7, map[(0, 1) := Vote(2, 3)], {})
    case 6 => Sys(Zero(2), One(1), Two(2), map[3 := AuthAck(ACK)], 7, map[(0, 1) := Vote(2, 3)], {})
    case 7 => Sys(Zero(2), One(1), Two(2), map[3 := AuthAck(ACK), 8 := Ping(ECHO)], 9, map[(0, 1) := Vote(2, 3)], {})
    case 8 => Sys(Zero(2), One(2), Two(2), map[3 := AuthAck(ACK)], 9, map[(0, 1) := Vote(2, 3)], {})
    case 9 => Sys(Zero(2), One(2), Two(3), map[], 9, map[(0, 1) := Vote(2, 3)], {0})
    case _ => Sys(Zero(2), One(2), Winner(), map[], 9, map[(0, 1) := Vote(2, 3)], {0}).(wins := {Win(1, 2, {0}, 0, 1)})
  }

  function StepOf(k: nat): Step {
    match k
    case 0 => BumpEpoch(1)
    case 1 => Failover(2, At(10000), {0})
    case 2 => Deliver(0, 10000, 1000, true)
    case 3 => BumpEpoch(0)
    case 4 => SendPing(0, {2})
    case 5 => Deliver(6, 0, 0, true)
    case 6 => SendPing(2, {1})
    case 7 => Deliver(8, 0, 0, true)
    case 8 => Deliver(3, 0, 0, true)
    case _ => Failover(2, At(10000), {})
  }

  ghost predicate Named(n: Node, id: NodeId) { n.me == id && id in n.peers }

  lemma AllNamed()
    ensures forall k :: Named(Zero(k), 0) && Named(One(k), 1) && Named(Two(k), 2)
    ensures Named(Winner(), 2) && Two(2).auth.sent && Two(3).size == 1 && Winner().auth.epoch == 1
  {
  }

  /** What a system is made of, and how it changes with one node. */
  lemma SysIs(n0: Node, n1: Node, n2: Node, net: map<nat, Msg>, sent: nat, votes: map<(NodeId, nat), Vote>,
              b2: set<NodeId>, x: Node)
    ensures var s := Sys(n0, n1, n2, net, sent, votes, b2);
            && s.nodes.Keys == {0, 1, 2} && s.nodes[0] == n0 && s.nodes[1] == n1 && s.nodes[2] == n2
            && s.net == net && s.sent == sent && s.votes == votes && s.wins == {}
            && s.backers.Keys == {0, 1, 2} && s.stale.Keys == {0, 1, 2} && s.backers[2] == b2 && s.stale[2] == 0
            && SetNode(s, 0, x) == Sys(x, n1, n2, net, sent, votes, b2)
            && SetNode(s, 1, x) == Sys(n0, x, n2, net, sent, votes, b2)
            && SetNode(s, 2, x) == Sys(n0, n1, x, net, sent, votes, b2)
            && (Named(n0, 0) && Named(n1, 1) && Named(n2, 2) ==> WellFormed(s))
  {
    hide WellFormed, Named;
    SysParts(n0, n1, n2, net, sent, votes, b2);
    SysSets(n0, n1, n2, x);
    if Named(n0, 0) && Named(n1, 1) && Named(n2, 2) { SysWellFormed(n0, n1, n2, net, sent, votes, b2); }
  }

  lemma SysParts(n0: Node, n1: Node, n2: Node, net: map<nat, Msg>, sent: nat, votes: map<(NodeId, nat), Vote>,
                 b2: set<NodeId>)
    ensures var s := Sys(n0, n1, n2, net, sent, votes, b2);
            && s.nodes.Keys == {0, 1, 2} && s.backers.Keys == {0, 1, 2} && s.stale.Keys == {0, 1, 2}
            && s.nodes[0] == n0 && s.nodes[1] == n1 && s.nodes[2] == n2
            && s.net == net && s.votes == votes && s.wins == {}
            && (forall id | id in s.stale :: s.stale[id] == 0)
            && (b2 == {} ==> forall id | id in s.backers :: s.backers[id] == {})
  {
  }

  lemma SysSets(n0: Node, n1: Node, n2: Node, x: Node)
    ensures var m: map<NodeId, Node> := map[0 := n0, 1 := n1, 2 := n2];
            && m[0 := x] == map[0 := x, 1 := n1, 2 := n2]
            && m[1 := x] == map[0 := n0, 1 := x, 2 := n2]
            && m[2 := x] == map[0 := n0, 1 := n1, 2 := x]
  {
  }

  lemma SysWellFormed(n0: Node, n1: Node, n2: Node, net: map<nat, Msg>, sent: nat, votes: map<(NodeId, nat), Vote>,
                      b2: set<NodeId>)
    requires Named(n0, 0) && Named(n1, 1) && Named(n2, 2)
    ensures WellFormed(Sys(n0, n1, n2, net, sent, votes, b2))
  {
    SysParts(n0, n1, n2, net, sent, votes, b2);
  }

  lemma BackersIs(n0: Node, n1: Node, n2: Node, net: map<nat, Msg>, sent: nat, votes: map<(NodeId, nat), Vote>,
                  b2: set<NodeId>, b: set<NodeId>)
    ensures var s := Sys(n0, n1, n2, net, sent, votes, b2);
            s.(backers := s.backers[2 := b]) == Sys(n0, n1, n2, net, sent, votes, b)
  {
    var m: map<NodeId, set<NodeId>> := map[0 := {}, 1 := {}, 2 := b2];
    assert m[2 := b] == map[0 := {}, 1 := {}, 2 := b];
  }

  lemma NetOf(n0: Node, n1: Node, n2: Node, net: map<nat, Msg>, sent: nat, votes: map<(NodeId, nat), Vote>,
              b2: set<NodeId>, net': map<nat, Msg>, sent': nat, votes': map<(NodeId, nat), Vote>)
    ensures Sys(n0, n1, n2, net, sent, votes, b2).(net := net', sent := sent', votes := votes')
            == Sys(n0, n1, n2, net', sent', votes', b2)
  {
  }

  lemma Step0()
    ensures IsStep(Stage(0), StepOf(0), Stage(1))
  {
    hide Bump, Zero, One, Two, Sys, WellFormed, Named, SetNode;
    AllNamed();
    Bumps();
    SysIs(Zero(0), One(0), Two(0), map[], 0, map[], {}, One(1));
  }

  lemma Step1()
    ensures IsStep(Stage(1), StepOf(1), Stage(2))
  {
    hide HandleFailover, BuildHeader, Send, Zero, One, Two, Sys, WellFormed, Named, SetNode;
    AllNamed();
    Asks();
    SysIs(Zero(0), One(1), Two(0), map[], 0, map[], {}, Two(1));
    assert RequestsTo(Two(1), {0}, true) == map[0 := AuthRequest(REQUEST)];
    var s := Sys(Zero(0), One(1), Two(1), map[], 0, map[], {});
    SysIs(Zero(0), One(1), Two(1), map[], 0, map[], {}, Two(1));
    SendsOne(s, 0, AuthRequest(REQUEST));
    NetOf(Zero(0), One(1), Two(1), map[], 0, map[], {}, map[0 := AuthRequest(REQUEST)], 1, map[]);
    assert map[][0 as nat := AuthRequest(REQUEST)] == map[0 as nat := AuthRequest(REQUEST)];
  }

  lemma VoterEpoch3()
    ensures Zero(1).lastVoteEpoch == 1
  {
  }

  lemma Step2()
    ensures IsStep(Stage(2), StepOf(2), Stage(3))
  {
    hide ReceiveRequest, BuildHeader, Send, Zero, One, Two, Sys, WellFormed, Named, SetNode;
    AllNamed();
    Grants();
    VoterEpoch3();
    var net: map<nat, Msg> := map[0 := AuthRequest(REQUEST)];
    SysIs(Zero(0), One(1), Two(1), net, 1, map[], {}, Zero(1));
    NetOf(Zero(0), One(1), Two(1), net, 1, map[], {}, map[], 1, map[]);
    assert net - {0} == map[];
    SysIs(Zero(0), One(1), Two(1), map[], 1, map[], {}, Zero(1));
    SysIs(Zero(1), One(1), Two(1), map[], 1, map[], {}, Zero(1));
    var votes: map<(NodeId, nat), Vote> := map[(0, 1) := Vote(2, 3)];
    assert map[][(0 as NodeId, 1 as nat) := Vote(2, 3)] == votes;
    NetOf(Zero(1), One(1), Two(1), map[], 1, map[], {}, map[], 1, votes);
    var s := Sys(Zero(1), One(1), Two(1), map[], 1, votes, {});
    SysIs(Zero(1), One(1), Two(1), map[], 1, votes, {}, Zero(1));
    SendsOne(s, 2, AuthAck(ACK));
    assert map[][3 as nat := AuthAck(ACK)] == map[3 as nat := AuthAck(ACK)];
    NetOf(Zero(1), One(1), Two(1), map[], 1, votes, {}, map[3 := AuthAck(ACK)], 4, votes);
  }

  const VOTES: map<(NodeId, nat), Vote> := map[(0, 1) := Vote(2, 3)]

  lemma Step3()
    ensures IsStep(Stage(3), StepOf(3), Stage(4))
  {
    hide Bump, Zero, One, Two, Sys, WellFormed, Named, SetNode;
    AllNamed();
    Bumps();
    SysIs(Zero(1), One(1), Two(1), map[3 := AuthAck(ACK)], 4, VOTES, {}, Zero(2));
  }

  lemma Step4()
    ensures IsStep(Stage(4), StepOf(4), Stage(5))
  {
    hide BuildHeader, Send, Zero, One, Two, Sys, WellFormed, Named, SetNode;
    AllNamed();
    Announce();
    var net: map<nat, Msg> := map[3 := AuthAck(ACK)];
    SysIs(Zero(2), One(1), Two(1), net, 4, VOTES, {}, Zero(2));
    assert PingsTo(Zero(2), {2}) == map[2 := Ping(RISEN)];
    SendsOne(Sys(Zero(2), One(1), Two(1), net, 4, VOTES, {}), 2, Ping(RISEN));
    assert net[6 := Ping(RISEN)] == map[3 := AuthAck(ACK), 6 := Ping(RISEN)];
    NetOf(Zero(2), One(1), Two(1), net, 4, VOTES, {}, map[3 := AuthAck(ACK), 6 := Ping(RISEN)], 7, VOTES);
  }

  lemma Step5()
    ensures IsStep(Stage(5), StepOf(5), Stage(6))
  {
    hide ReceivePing, Zero, One, Two, Sys, WellFormed, Named, SetNode;
    AllNamed();
    HearsRise();
    var net: map<nat, Msg> := map[3 := AuthAck(ACK), 6 := Ping(RISEN)];
    SysIs(Zero(2), One(1), Two(1), net, 7, VOTES, {}, Two(2));
    assert net - {6} == map[3 := AuthAck(ACK)];
    NetOf(Zero(2), One(1), Two(1), net, 7, VOTES, {}, map[3 := AuthAck(ACK)], 7, VOTES);
    SysIs(Zero(2), One(1), Two(1), map[3 := AuthAck(ACK)], 7, VOTES, {}, Two(2));
  }

  lemma Step6()
    ensures IsStep(Stage(6), StepOf(6), Stage(7))
  {
    hide BuildHeader, Send, Zero, One, Two, Sys, WellFormed, Named, SetNode;
    AllNamed();
    Announce();
    var net: map<nat, Msg> := map[3 := AuthAck(ACK)];
    SysIs(Zero(2), One(1), Two(2), net, 7, VOTES, {}, Zero(2));
    assert PingsTo(Two(2), {1}) == map[1 := Ping(ECHO)];
    SendsOne(Sys(Zero(2), One(1), Two(2), net, 7, VOTES, {}), 1, Ping(ECHO));
    assert net[8 := Ping(ECHO)] == map[3 := AuthAck(ACK), 8 := Ping(ECHO)];
    NetOf(Zero(2), One(1), Two(2), net, 7, VOTES, {}, map[3 := AuthAck(ACK), 8 := Ping(ECHO)], 9, VOTES);
  }

  lemma Step7()
    ensures IsStep(Stage(7), StepOf(7), Stage(8))
  {
    hide ReceivePing, Zero, One, Two, Sys, WellFormed, Named, SetNode;
    AllNamed();
    HearsEcho();
    var net: map<nat, Msg> := map[3 := AuthAck(ACK), 8 := Ping(ECHO)];
    SysIs(Zero(2), One(1), Two(2), net, 9, VOTES, {}, One(2));
    assert net - {8} == map[3 := AuthAck(ACK)];
    NetOf(Zero(2), One(1), Two(2), net, 9, VOTES, {}, map[3 := AuthAck(ACK)], 9, VOTES);
    SysIs(Zero(2), One(1), Two(2), map[3 := AuthAck(ACK)], 9, VOTES, {}, One(2));
  }

  lemma CountsTheVote()
    ensures var s := Sys(Zero(2), One(2), Two(2), map[], 9, VOTES, {});
            && s.nodes.Keys == s.backers.Keys == s.stale.Keys == {0, 1, 2}
            && DeliverAck(s, 2, ACK) == Sys(Zero(2), One(2), Two(3), map[], 9, VOTES, {0})
  {
    hide ReceiveAck, CountsAck, SeeEpochs, Zero, One, Two, Sys, WellFormed, Named, SetNode;
    HearsAck();
    VoteWasAsked();
    SysIs(Zero(2), One(2), Two(2), map[], 9, VOTES, {}, Two(3));
    BackersIs(Zero(2), One(2), Two(3), map[], 9, VOTES, {}, {0});
    SameBackers(Sys(Zero(2), One(2), Two(2), map[], 9, VOTES, {}), Two(3));
    assert {} + {0} == {0};
  }

  lemma SameBackers(s: System, n: Node)
    ensures SetNode(s, 2, n).backers == s.backers
  {
  }

  lemma VoteWasAsked()
    ensures Two(2).auth.sent
  {
  }

  lemma Step8()
    ensures IsStep(Stage(8), StepOf(8), Stage(9))
  {
    hide DeliverAck, Zero, One, Two, Sys, WellFormed, Named, SetNode;
    AllNamed();
    CountsTheVote();
    var net: map<nat, Msg> := map[3 := AuthAck(ACK)];
    SysIs(Zero(2), One(2), Two(2), net, 9, VOTES, {}, Two(3));
    assert net - {3} == map[];
    NetOf(Zero(2), One(2), Two(2), net, 9, VOTES, {}, map[], 9, VOTES);
  }

  lemma Step9()
    ensures IsStep(Stage(9), StepOf(9), Stage(10))
  {
    hide HandleFailover, Zero, One, Two, Winner, Sys, WellFormed, Named, SetNode;
    AllNamed();
    WinsLate();
    SysIs(Zero(2), One(2), Two(3), map[], 9, VOTES, {0}, Winner());
    SysIs(Zero(2), One(2), Winner(), map[], 9, VOTES, {0}, Winner());
    assert {} + {Win(1, 2, {0}, 0, 1)} == {Win(1, 2, {0}, 0, 1)};
  }

  ghost function Run(): seq<System> { seq(11, k requires 0 <= k < 11 => Stage(k)) }

  ghost function Steps(): seq<Step> { seq(10, k requires 0 <= k < 10 => StepOf(k)) }

  ghost predicate Fresh(n: Node) {
    EpochsBounded(n) && n.auth.count == 0 && !n.auth.sent && forall id :: EpochOf(n, id) == 0
  }

  lemma AllFresh()
    ensures Fresh(Zero(0)) && Fresh(One(0)) && Fresh(Two(0))
  {
  }

  lemma StartIsInit()
    ensures Init(Stage(0)) && NoneAhead(Stage(0))
  {
    hide Sys, Zero, One, Two, Named, EpochsBounded, EpochOf;
    AllNamed();
    AllFresh();
    SysIs(Zero(0), One(0), Two(0), map[], 0, map[], {}, Zero(0));
    SysParts(Zero(0), One(0), Two(0), map[], 0, map[], {});
    var s := Stage(0);
    assert forall id | id in s.nodes :: Fresh(s.nodes[id]);
  }

  lemma IsARun()
    ensures IsRun(Run(), Steps())
  {
    hide Stage, StepOf, IsStep, Init;
    StartIsInit();
    Step0();
    Step1();
    Step2();
    Step3();
    Step4();
    Step5();
    Step6();
    Step7();
    Step8();
    Step9();
    forall k | 0 <= k < |Steps()| ensures IsStep(Run()[k], Steps()[k], Run()[k + 1]) {
      assert Run()[k] == Stage(k) && Run()[k + 1] == Stage(k + 1) && Steps()[k] == StepOf(k);
    }
  }

  /** A take-over that lowers the owner's epoch: the last step of a run gives slot 0, in the winner's table,
      from node 0 with config epoch 2 to node 2 with config epoch 1. */
  lemma TakeOverLowers() returns (run: seq<System>, steps: seq<Step>)
    ensures IsRun(run, steps) && |steps| == 10 && |run| == 11 && steps[9].Failover?
    ensures 2 in run[9].nodes && 2 in run[10].nodes && Changes(run[9].nodes[2], run[10].nodes[2], 0, 0, 2)
    ensures EpochOf(run[10].nodes[2], 2) < EpochOf(run[10].nodes[2], 0)
  {
    hide IsRun, Stage, StepOf, Changes, EpochOf;
    IsARun();
    run, steps := Run(), Steps();
    LastNodes();
    Lowers();
    assert Run()[9] == Stage(9) && Run()[10] == Stage(10) && Steps()[9] == StepOf(9);
  }

  lemma LastNodes()
    ensures 2 in Stage(9).nodes && Stage(9).nodes[2] == Two(3) && 2 in Stage(10).nodes && Stage(10).nodes[2] == Winner()
    ensures StepOf(9).Failover?
  {
    hide Sys, Zero, One, Two, Winner;
    SysIs(Zero(2), One(2), Two(3), map[], 9, VOTES, {0}, Winner());
    SysIs(Zero(2), One(2), Winner(), map[], 9, VOTES, {0}, Winner());
  }

  lemma Lowers()
    ensures Changes(Two(3), Winner(), 0, 0, 2) && EpochOf(Winner(), 2) < EpochOf(Winner(), 0)
  {
  }

  lemma QuietPings()
    ensures forall a, b | a in {0, 1, 2} && b in {0, 1, 2} && a != b ::
              Own(ReceivePing(Final(a), BuildHeader(Final(b), a, false))) == Own(Final(a))
  {
    forall a, b | a in {0, 1, 2} && b in {0, 1, 2} && a != b
      ensures Own(ReceivePing(Final(a), BuildHeader(Final(b), a, false))) == Own(Final(a))
    {
      PingMovesExactlyOnCollision(Final(a), BuildHeader(Final(b), a, false));
    }
  }

  function Final(id: NodeId): Node { if id == 0 then Zero(2) else if id == 1 then One(2) else Winner() }

  /** Elections break what pings keep: from a start in which nobody is ahead of a master, this run ends with
      masters 1 and 2 sharing config epoch 1 while node 1 believes that node 2 has epoch 2, and no ping
      moves anyone. */
  lemma ElectionLeavesStuckCollision() returns (run: seq<System>, steps: seq<Step>)
    ensures IsRun(run, steps) && |run| == |steps| + 1 && NoneAhead(run[0])
    ensures var s := run[|steps|];
            && WellFormed(s) && EpochCollision.Settled(s) && Collision(s, 1, 2) && !NoneAhead(s)
            && IsMaster(s.nodes[1], 1) && IsMaster(s.nodes[2], 2)
  {
    hide IsRun, Init;
    IsARun();
    run, steps := Run(), Steps();
    StartIsInit();
    assert run[0] == Stage(0) && run[10] == Stage(10);
    EndsStuck(run[10]);
  }

  lemma EndsStuck(s: System)
    requires s == Stage(10)
    ensures WellFormed(s) && EpochCollision.Settled(s) && Collision(s, 1, 2) && !NoneAhead(s)
    ensures IsMaster(s.nodes[1], 1) && IsMaster(s.nodes[2], 2)
  {
    hide EpochCollision.Settled, Named, Sys, Zero, One, Two, Winner, Announces, EpochOf, IsMaster;
    AllNamed();
    SysIs(Zero(2), One(2), Winner(), map[], 9, VOTES, {0}, Winner());
    FinalFacts();
    assert forall id | id in s.nodes :: s.nodes[id] == Final(id);
    EndsSettled(s);
  }

  lemma EndsSettled(s: System)
    requires WellFormed(s) && s.nodes.Keys == {0, 1, 2} && forall id | id in s.nodes :: s.nodes[id] == Final(id)
    ensures EpochCollision.Settled(s)
  {
    hide ReceivePing, BuildHeader, Final, WellFormed;
    QuietPings();
  }

  lemma FinalFacts()
    ensures EpochOf(Final(1), 2) == 2 && EpochOf(Final(1), 1) == 1 && EpochOf(Final(2), 2) == 1 && Announces(Final(2))
    ensures IsMaster(Final(1), 1) && IsMaster(Final(2), 2) && 2 in Final(1).peers && Final(1).me == 1
            && Final(2).me == 2
  {
  }
}
