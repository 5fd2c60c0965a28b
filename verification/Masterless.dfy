/** A replica that knows no master, and a packet that stops it. */
module Masterless {
  import opened Common
  import opened ClusterState
  import opened ClusterProtocol
  import opened ClusterServer
  import opened ElectionSafety
  import opened ElectionSplit

  function Replica0(): Node {
    Node(0, 0, 0, map[0 := Peer(0, Replica(None), false, 0), 1 := Peer(0, Master, false, 0)], map[], {}, 0, Idle0())
  }

  function Master1(): Node {
    Node(1, 0, 0, map[0 := Peer(0, Replica(None), false, 0), 1 := Peer(0, Master, false, 0)], map[0 := 1], {}, 1,
         Idle0())
  }

  const CLAIM := Header(1, 0, 0, 0, None, {0}, false)

  ghost function Before(): System {
    System(map[0 := Replica0(), 1 := Master1()], map[], 0, map[], map[0 := {}, 1 := {}], map[0 := 0, 1 := 0], {})
  }

  ghost function After(): System { Before().(net := map[0 := Ping(CLAIM)], sent := 1) }

  lemma Stops0()
    ensures BuildHeader(Master1(), 0, false) == CLAIM && PingStops(Replica0(), CLAIM)
  {
    assert SlotsOf(Master1(), 1) == {0};
    var n := Replica0();
    var p := n.peers;
    assert p[1 := p[1].(configEpoch := 0)] == p;
    assert SeeEpochs(n, CLAIM) == n;
    assert p[1 := p[1].(role := Master)] == p;
    assert SwitchRole(n, CLAIM) == n;
    assert SlotsOf(n, 1) == {};
    assert 0 in CLAIM.slots && Rebinds(n, 1, 0, {0}, 0);
    assert MissesMaster(n, 1, 0, {0});
  }

  /** A run of one step after which a ping is on its way that makes its receiver, a replica that knows no
      master, dereference null: the ping claims a slot that the replica has as unassigned. */
  lemma NullMasterRun() returns (run: seq<System>, steps: seq<Step>)
    ensures IsRun(run, steps) && |run| == 2 && |steps| == 1
    ensures 0 in run[1].net && run[1].net[0].Ping? && run[1].net[0].h.dst == 0 && 0 in run[1].nodes
    ensures PingStops(run[1].nodes[0], run[1].net[0].h)
  {
    hide PingStops, BuildHeader, Send;
    Stops0();
    run, steps := [Before(), After()], [SendPing(1, {0})];
    var s := Before();
    assert PingsTo(Master1(), {0}) == map[0 := Ping(CLAIM)];
    SendsOne(s, 0, Ping(CLAIM));
    assert map[][0 as nat := Ping(CLAIM)] == map[0 as nat := Ping(CLAIM)];
    assert Init(s);
    assert IsStep(s, SendPing(1, {0}), After());
  }
}
