/** The cluster state as the server keeps it: node objects, a table of 16384 slots and, for
    every node, a bitmap and a counter of its slots, all updated in place.  Each method is proved
    against the value-level function of `ClusterState` that the protocol theorems use. */
module ClusterServer {
  import opened Common
  import opened ClusterState

  class ClusterNode {
    const name: NodeId
    var configEpoch: nat
    var isMaster: bool
    var slaveof: ClusterNode?
    var failed: bool
    var votedTime: int
    var slots: set<Slot>   // the bitmap
    var numslots: int

    constructor (name: NodeId, isMaster: bool)
      ensures this.name == name && configEpoch == 0 && this.isMaster == isMaster
      ensures slaveof == null && !failed && votedTime == 0 && slots == {} && numslots == 0
    {
      this.name := name;
      configEpoch, this.isMaster, slaveof, failed, votedTime := 0, isMaster, null, false, 0;
      slots, numslots := {}, 0;
    }

    /** Marks the slot in the bitmap; was tells whether it had been marked before. */
    method SetSlotBit(slot: Slot) returns (was: bool)
      requires numslots == |slots|
      modifies this`slots, this`numslots
      ensures was == (slot in old(slots)) && slots == old(slots) + {slot} && numslots == |slots|
    {
      was := slot in slots;
      assert was ==> slots + {slot} == slots;
      slots := slots + {slot};
      if !was { numslots := numslots + 1; }
    }

    /** Takes the slot's mark away; was tells whether there had been one. */
    method ClearSlotBit(slot: Slot) returns (was: bool)
      requires numslots == |slots|
      modifies this`slots, this`numslots
      ensures was == (slot in old(slots)) && slots == old(slots) - {slot} && numslots == |slots|
    {
      was := slot in slots;
      assert !was ==> slots - {slot} == slots;
      slots := slots - {slot};
      if was { numslots := numslots - 1; }
    }
  }

  ghost function PeerOf(n: ClusterNode): Peer
    reads n
  {
    Peer(n.configEpoch,
         if n.isMaster then Master else Replica(if n.slaveof == null then None else Some(n.slaveof.name)),
         n.failed, n.votedTime)
  }

  ghost function OwnerOf(table: seq<ClusterNode?>): map<Slot, NodeId> {
    map j | 0 <= j < |table| && table[j] != null :: table[j].name
  }

  /** The slots the table gives to node n. */
  ghost function SlotsIn(table: seq<ClusterNode?>, n: ClusterNode): set<Slot> {
    set j | 0 <= j < |table| && table[j] == n
  }

  lemma NoOwners(table: seq<ClusterNode?>, n: ClusterNode)
    requires forall j | 0 <= j < |table| :: table[j] == null
    ensures OwnerOf(table) == map[] && ImportsOf(table) == {} && SlotsIn(table, n) == {}
  {
  }

  lemma SlotIn(table: seq<ClusterNode?>, slot: Slot, n: ClusterNode)
    requires slot < |table|
    ensures slot in SlotsIn(table, n) <==> table[slot] == n
  {
  }

  lemma SlotsInUpdate(table: seq<ClusterNode?>, slot: Slot, x: ClusterNode?, n: ClusterNode)
    requires slot < |table|
    ensures SlotsIn(table[slot := x], n)
            == if x == n then SlotsIn(table, n) + {slot} else SlotsIn(table, n) - {slot}
  {
  }

  ghost function ImportsOf(table: seq<ClusterNode?>): set<Slot> {
    set j | 0 <= j < |table| && table[j] != null
  }

  /** How the claim of a master ends: also with the two ways in which the server stops. */
  datatype Outcome = Done | NullDereference | AssertFailed

  /** The claim takes an unassigned slot, and this node is a replica that knows no master. */
  ghost predicate MissesMaster(s: Node, claimant: NodeId, epoch: nat, bitmap: set<Slot>) {
    && claimant != s.me && MyMaster(s).None?
    && exists j | j in bitmap :: j !in s.owner && Rebinds(s, claimant, epoch, bitmap, j)
  }

  /** The claim leaves this node's master without slots, but not this node. */
  ghost predicate KeepsSlots(s: Node, claimant: NodeId, epoch: nat, bitmap: set<Slot>) {
    claimant != s.me && Deposed(s, claimant, epoch, bitmap) && s.me in ClaimedOwner(s, claimant, epoch, bitmap).Values
  }

  ghost predicate Stops(s: Node, claimant: NodeId, epoch: nat, bitmap: set<Slot>) {
    MissesMaster(s, claimant, epoch, bitmap) || KeepsSlots(s, claimant, epoch, bitmap)
  }

  /** The assertion holds in a node that serves nothing as a replica. */
  lemma IdleReplicaAsserts(s: Node, claimant: NodeId, epoch: nat, bitmap: set<Slot>)
    requires IdleReplica(s)
    ensures !KeepsSlots(s, claimant, epoch, bitmap)
  {
  }

  /** The claim that a ping carries stops the server. */
  ghost predicate PingStops(s: Node, h: Header) {
    && h.src in s.peers && h.src in SeeEpochs(s, h).peers
    && (var n1 := SwitchRole(SeeEpochs(s, h), h);
        IsMaster(n1, h.src) && SlotsOf(n1, h.src) != h.slots && Stops(n1, h.src, h.configEpoch, h.slots))
  }

  ghost predicate UpdateStops(s: Node, m: Msg)
    requires m.Update?
  {
    var n1 := SeeEpochs(s, m.h);
    && m.h.src in s.peers && m.about in n1.peers && EpochOf(n1, m.about) < m.aboutEpoch
    && Stops(SetPeer(n1, m.about, n1.peers[m.about].(role := Master, configEpoch := m.aboutEpoch)),
             m.about, m.aboutEpoch, m.aboutSlots)
  }

  lemma SeesNothing(s: Node, h: Header)
    requires h.src !in s.peers
    ensures SeeEpochs(s, h) == s
  {
  }

  lemma SameKeys(s: Node, h: Header)
    ensures SeeEpochs(s, h).peers.Keys == s.peers.Keys && SeeEpochs(s, h).me == s.me
  {
  }

  class Server {
    const myself: ClusterNode
    const slots: array<ClusterNode?>
    const importing: array<ClusterNode?>   // importing_slots_from
    const migrating: array<ClusterNode?>   // migrating_slots_to
    var nodes: map<NodeId, ClusterNode>
    var currentEpoch: nat
    var lastVoteEpoch: nat
    var size: nat
    var auth: Auth
    ghost var all: set<ClusterNode>        // the nodes of the dictionary

    ghost predicate Known(n: ClusterNode)
      reads this
    {
      n in all && n.name in nodes && nodes[n.name] == n
    }

    /** The dictionary, the table and the replication links only mention known nodes. */
    ghost predicate WellFormed()
      reads this, slots, importing, all
    {
      && slots.Length == CLUSTER_SLOTS && importing.Length == CLUSTER_SLOTS && migrating.Length == CLUSTER_SLOTS
      && slots != importing && slots != migrating && importing != migrating
      && Known(myself)
      && (forall id | id in nodes :: nodes[id] in all && nodes[id].name == id)
      && (forall n | n in all :: Known(n))
      && (forall n {:trigger n.slaveof} | n in all && n.slaveof != null :: !n.isMaster && Known(n.slaveof))
      && (forall j | 0 <= j < CLUSTER_SLOTS && slots[j] != null :: slots[j] in all)
    }

    /** Slot table, bitmaps and counters agree. */
    ghost predicate Agree()
      reads this, slots, all
    {
      forall n | n in all :: n.slots == SlotsIn(slots[..], n) && n.numslots == |n.slots|
    }

    ghost predicate Valid()
      reads this, slots, importing, all
    {
      WellFormed() && Agree()
    }

    ghost function Peers(): map<NodeId, Peer>
      requires WellFormed()
      reads this, slots, importing, all
    {
      map id | id in nodes :: PeerOf(nodes[id])
    }

    ghost function State(): Node
      requires WellFormed()
      reads this, slots, importing, all
    {
      Node(myself.name, currentEpoch, lastVoteEpoch, Peers(), OwnerOf(slots[..]), ImportsOf(importing[..]),
           size, auth)
    }

    /** A fresh node: a master that knows only itself and serves nothing. */
    constructor (name: NodeId)
      ensures Valid()
      ensures State() == Node(name, 0, 0, map[name := Peer(0, Master, false, 0)], map[], {}, 1, Auth(0, 0, false, 0, 0))
    {
      var me := new ClusterNode(name, true);
      myself := me;
      slots := new ClusterNode?[CLUSTER_SLOTS](_ => null);
      importing := new ClusterNode?[CLUSTER_SLOTS](_ => null);
      migrating := new ClusterNode?[CLUSTER_SLOTS](_ => null);
      nodes, all := map[name := me], {me};
      currentEpoch, lastVoteEpoch, size, auth := 0, 0, 1, Auth(0, 0, false, 0, 0);
      new;
      hide OwnerOf, ImportsOf, SlotsIn, WellFormed, Agree;
      FreshView();
    }

    lemma FreshView()
      requires slots.Length == CLUSTER_SLOTS && importing.Length == CLUSTER_SLOTS && migrating.Length == CLUSTER_SLOTS
      requires slots != importing && slots != migrating && importing != migrating
      requires forall j | 0 <= j < CLUSTER_SLOTS :: slots[j] == null && importing[j] == null
      requires nodes == map[myself.name := myself] && all == {myself}
      requires myself.isMaster && myself.slaveof == null && myself.slots == {} && myself.numslots == 0
      ensures Valid()
      ensures State() == Node(myself.name, currentEpoch, lastVoteEpoch, map[myself.name := PeerOf(myself)], map[], {},
                              size, auth)
    {
      hide OwnerOf, ImportsOf, SlotsIn;
      NoOwners(slots[..], myself);
      NoOwners(importing[..], myself);
      assert Peers() == map[myself.name := PeerOf(myself)];
    }

    /** A node's own fields but its slots were changed, and nothing else that the views are made of. */
    twostate lemma OneNodeChanged(n: ClusterNode)
      requires old(Valid()) && n in old(all) && nodes == old(nodes) && all == old(all)
      requires forall m | m in all && m != n :: unchanged(m)
      requires n.slots == old(n.slots) && n.numslots == old(n.numslots)
      requires n.slaveof != null ==> !n.isMaster && n.slaveof in all
      requires slots[..] == old(slots[..]) && importing[..] == old(importing[..])
      ensures Valid() && Peers() == old(Peers())[n.name := PeerOf(n)]
    {
      hide OwnerOf, ImportsOf, SlotsIn;
      assert old(Known(n));
      assert forall j | 0 <= j < CLUSTER_SLOTS :: slots[j] == slots[..][j];
      assert forall id | id in nodes && id != n.name :: nodes[id] != n;
    }

    lemma NodeFacts(n: ClusterNode)
      requires Valid() && (n in all || n == myself)
      ensures WellFormed() && n in all && n.name in nodes && nodes[n.name] == n && State().peers[n.name] == PeerOf(n)
      ensures n.slaveof != null ==> !n.isMaster && n.slaveof in all
    {
      assert Known(n);
    }

    // ---------- slots ----------

    lemma InBitmap(slot: Slot, n: ClusterNode)
      requires Valid() && slot < CLUSTER_SLOTS && n in all
      ensures slot in n.slots <==> slots[slot] == n
    {
    }

    /** An unassigned slot was given to a node, in the table and in its bitmap. */
    twostate lemma SlotGiven(slot: Slot)
      requires old(Valid()) && nodes == old(nodes) && all == old(all) && slot < CLUSTER_SLOTS
      requires old(slots[slot]) == null && slots[slot] != null && slots[slot] in all
      requires slots[..] == old(slots[..])[slot := slots[slot]]
      requires forall m | m in all :: m.slaveof == old(m.slaveof) && m.isMaster == old(m.isMaster)
      requires forall m | m in all && m != slots[slot] :: m.slots == old(m.slots) && m.numslots == old(m.numslots)
      requires var n := slots[slot]; n.slots == old(n.slots) + {slot} && n.numslots == |n.slots|
      ensures Valid()
    {
      hide OwnerOf, ImportsOf, SlotsIn;
      ghost var table := old(slots[..]);
      assert forall j | 0 <= j < CLUSTER_SLOTS :: slots[j] == slots[..][j];
      forall m | m in all ensures m.slots == SlotsIn(slots[..], m) {
        SlotsInUpdate(table, slot, slots[slot], m);
        SlotIn(table, slot, m);
      }
    }

    /** A slot was taken from its owner, in the table and in its bitmap. */
    twostate lemma SlotTaken(slot: Slot)
      requires old(Valid()) && nodes == old(nodes) && all == old(all) && slot < CLUSTER_SLOTS
      requires old(slots[slot]) != null && old(slots[slot]) in all && slots[..] == old(slots[..])[slot := null]
      requires forall m | m in all :: m.slaveof == old(m.slaveof) && m.isMaster == old(m.isMaster)
      requires forall m | m in all && m != old(slots[slot]) :: m.slots == old(m.slots) && m.numslots == old(m.numslots)
      requires var n := old(slots[slot]); n.slots == old(n.slots) - {slot} && n.numslots == |n.slots|
      ensures Valid()
    {
      hide OwnerOf, ImportsOf, SlotsIn;
      ghost var table := old(slots[..]);
      assert forall j | 0 <= j < CLUSTER_SLOTS :: slots[j] == slots[..][j];
      forall m | m in all ensures m.slots == SlotsIn(slots[..], m) {
        SlotsInUpdate(table, slot, null, m);
        SlotIn(table, slot, m);
      }
    }

    /** Add a slot to those node n serves; an error if the slot is assigned. */
    method AddSlot(n: ClusterNode, slot: Slot) returns (ok: bool)
      requires Valid() && n in all && slot < CLUSTER_SLOTS
      modifies slots, all`slots, all`numslots
      ensures Valid()
      ensures ok == (old(slots[slot]) == null)
      ensures slots[..] == if ok then old(slots[..])[slot := n] else old(slots[..])
    {
      hide OwnerOf, ImportsOf, SlotsIn;
      ok := slots[slot] == null;
      if ok {
        var was := n.SetSlotBit(slot);
        slots[slot] := n;
        assert slots[..] == old(slots[..])[slot := n];
        SlotGiven(slot);
      }
    }

    /** Mark a slot as unassigned; an error if it already is.  The bit of the owner is always set:
        this is the assertion the source makes. */
    method DelSlot(slot: Slot) returns (ok: bool)
      requires Valid() && slot < CLUSTER_SLOTS
      modifies slots, all`slots, all`numslots
      ensures Valid()
      ensures ok == (old(slots[slot]) != null)
      ensures slots[..] == old(slots[..])[slot := null]
    {
      hide OwnerOf, ImportsOf, SlotsIn;
      var n := slots[slot];
      if n == null { return false; }
      InBitmap(slot, n);
      var was := n.ClearSlotBit(slot);
      assert was;
      slots[slot] := null;
      assert slots[..] == old(slots[..])[slot := null];
      SlotTaken(slot);
      return true;
    }

    /** Delete every slot of a node; the number of slots deleted is returned. */
    method DelNodeSlots(n: ClusterNode) returns (deleted: nat)
      requires Valid() && n in all
      modifies slots, all`slots, all`numslots
      ensures Valid()
      ensures deleted == |old(n.slots)|
      ensures slots[..] == Replaced(old(slots[..]), n, null, CLUSTER_SLOTS)
    {
      deleted := 0;
      ghost var table := slots[..];
      var j := 0;
      while j < CLUSTER_SLOTS
        invariant 0 <= j <= CLUSTER_SLOTS && Valid()
        invariant slots[..] == Replaced(table, n, null, j)
        invariant deleted + |n.slots| == |old(n.slots)|
      {
        ReplacedNext(table, n, null, j);
        if j in n.slots {
          ghost var before := n.slots;
          var ok := DelSlot(j);
          SlotsInUpdate(Replaced(table, n, null, j), j, null, n);
          assert n.slots == before - {j};
          deleted := deleted + 1;
        }
        j := j + 1;
      }
      assert SlotsIn(slots[..], n) == {};
    }

    /** Every slot of one node passes to another. */
    method MoveSlots(from: ClusterNode, to: ClusterNode)
      requires Valid() && from in all && to in all
      modifies slots, all`slots, all`numslots
      ensures Valid()
      ensures slots[..] == Replaced(old(slots[..]), from, to, CLUSTER_SLOTS)
    {
      ghost var table := slots[..];
      var j := 0;
      while j < CLUSTER_SLOTS
        invariant 0 <= j <= CLUSTER_SLOTS && Valid()
        invariant slots[..] == Replaced(table, from, to, j)
      {
        ReplacedNext(table, from, to, j);
        assert j in from.slots <==> slots[j] == from;
        if j in from.slots {
          var ok := DelSlot(j);
          ok := AddSlot(to, j);
        }
        j := j + 1;
      }
    }

    method TakeSlots(from: ClusterNode, to: ClusterNode)
      requires Valid() && from in all && to in all
      modifies slots, all`slots, all`numslots
      ensures Valid()
      ensures State() == old(State()).(owner := Reowned(old(State().owner), from.name, to.name))
    {
      OwnerOfReplaced(slots[..], from, to);
      MoveSlots(from, to);
      assert Peers() == old(Peers());
    }

    method Promote()
      requires Valid()
      modifies myself`isMaster, myself`slaveof
      ensures Valid()
      ensures State() == SetPeer(old(State()), myself.name, old(State()).peers[myself.name].(role := Master))
    {
      hide OwnerOf, ImportsOf, SlotsIn, WellFormed, Agree;
      NodeFacts(myself);
      myself.isMaster, myself.slaveof := true, null;
      OneNodeChanged(myself);
    }

    /** A replica becomes a master and takes the slots of its old master: the end of a failover. */
    method FailoverReplaceYourMaster()
      requires Valid()
      modifies slots, all`slots, all`numslots, myself`isMaster, myself`slaveof
      ensures Valid()
      ensures State() == if !old(myself.isMaster) && old(myself.slaveof) != null then TakeOver(old(State()))
                         else old(State())
    {
      var oldmaster := myself.slaveof;
      if myself.isMaster || oldmaster == null { return; }
      Promote();
      TakeSlots(oldmaster, myself);
    }

    // ---------- claims ----------

    /** The scan's test for slot j, in the value model's terms. */
    lemma RebindsTest(sender: ClusterNode, epoch: nat, bitmap: set<Slot>, j: Slot)
      requires WellFormed() && sender in all && j < CLUSTER_SLOTS
      ensures Rebinds(State(), sender.name, epoch, bitmap, j)
              <==> && j in bitmap && slots[j] != sender && importing[j] == null
                   && (slots[j] == null || slots[j].configEpoch < epoch)
    {
      assert slots[j] != null ==> Known(slots[j]);
      assert j in OwnerOf(slots[..]) <==> slots[j] != null;
      assert j in ImportsOf(importing[..]) <==> importing[j] != null;
    }

    /** Rebind every slot in won to the sender. */
    method RebindSlots(sender: ClusterNode, epoch: nat, bitmap: set<Slot>, keys: seq<nat>,
                       curmaster: ClusterNode?, ghost won: set<Slot>)
      returns (newmaster: ClusterNode?, dirty: seq<Slot>)
      requires Valid() && sender in all && sender != myself && |keys| == CLUSTER_SLOTS
      requires forall j | 0 <= j < CLUSTER_SLOTS ::
                 j in won <==> && j in bitmap && slots[j] != sender && importing[j] == null
                               && (slots[j] == null || slots[j].configEpoch < epoch)
      modifies slots, all`slots, all`numslots
      ensures Valid()
      ensures slots[..] == Rebound(old(slots[..]), sender, won, CLUSTER_SLOTS)
      ensures newmaster == if LosesSlot(old(slots[..]), curmaster, won, CLUSTER_SLOTS) then sender else null
      ensures dirty == DirtySlots(old(slots[..]), myself, won, keys, CLUSTER_SLOTS)
    {
      hide WellFormed, Agree, Rebound, LosesSlot, DirtySlots;
      newmaster, dirty := null, [];
      ghost var table := slots[..];
      TableSizes();
      ScanStart(table, sender, curmaster, won, keys, myself);
      var j := 0;
      while j < CLUSTER_SLOTS
        invariant 0 <= j <= CLUSTER_SLOTS && Valid()
        invariant slots[..] == Rebound(table, sender, won, j)
        invariant newmaster == if LosesSlot(table, curmaster, won, j) then sender else null
        invariant dirty == DirtySlots(table, myself, won, keys, j)
      {
        ScanNext(table, sender, curmaster, won, keys, myself, j);
        assert slots[j] == slots[..][j] == table[j] == old(slots[j]);
        if j in bitmap && slots[j] != sender && importing[j] == null
           && (slots[j] == null || slots[j].configEpoch < epoch)
        {
          if slots[j] == myself && keys[j] != 0 { dirty := dirty + [j]; }
          if slots[j] == curmaster { newmaster := sender; }
          GiveSlot(sender, j);
        }
        j := j + 1;
      }
    }

    lemma TableSizes()
      requires WellFormed()
      ensures slots.Length == CLUSTER_SLOTS && importing.Length == CLUSTER_SLOTS && slots != importing
    {
    }

    /** clusterDelSlot followed by clusterAddSlot. */
    method GiveSlot(to: ClusterNode, slot: Slot)
      requires Valid() && to in all && slot < CLUSTER_SLOTS
      modifies slots, all`slots, all`numslots
      ensures Valid() && slots[..] == old(slots[..])[slot := to]
    {
      hide WellFormed, Agree;
      TableSizes();
      ghost var table := slots[..];
      var ok := DelSlot(slot);
      assert slots[..][slot] == null;
      ok := AddSlot(to, slot);
    }

    method CloseAllSlots()
      requires Valid()
      modifies importing, migrating
      ensures Valid() && State() == old(State()).(importing := {})
      ensures forall j | 0 <= j < CLUSTER_SLOTS :: migrating[j] == null
    {
      forall j | 0 <= j < migrating.Length { migrating[j] := null; }
      forall j | 0 <= j < importing.Length { importing[j] := null; }
      assert ImportsOf(importing[..]) == {};
      assert slots[..] == old(slots[..]);
      assert Peers() == old(Peers());
    }

    method Follow(n: ClusterNode)
      requires Valid() && n in all
      modifies myself`isMaster, myself`slaveof
      ensures Valid()
      ensures State() == SetPeer(old(State()), myself.name,
                                 old(State()).peers[myself.name].(role := Replica(Some(n.name))))
    {
      hide OwnerOf, ImportsOf, SlotsIn, WellFormed, Agree;
      NodeFacts(n);
      NodeFacts(myself);
      myself.isMaster, myself.slaveof := false, n;
      OneNodeChanged(myself);
    }

    /** Turn this node into a replica of n; a master also closes its slots.  ok is the assertion that this
        node serves no slot. */
    method SetMaster(n: ClusterNode) returns (ok: bool)
      requires Valid() && n in all && n != myself
      modifies myself`isMaster, myself`slaveof, importing, migrating
      ensures Valid() && ok == (myself.numslots == 0)
      ensures var s := old(State());
              State() == if !ok then s
                         else SetPeer(s.(importing := if s.peers[s.me].role.Master? then {} else s.importing),
                                      s.me, s.peers[s.me].(role := Replica(Some(n.name))))
    {
      if myself.numslots != 0 { return false; }
      if myself.isMaster { CloseAllSlots(); }
      Follow(n);
      ok := true;
    }

    method Claim(sender: ClusterNode, epoch: nat, bitmap: set<Slot>, keys: seq<nat>, curmaster: ClusterNode?)
      returns (newmaster: ClusterNode?, dirty: seq<Slot>)
      requires Valid() && sender in all && sender != myself && |keys| == CLUSTER_SLOTS
      requires forall j | j in bitmap :: j < CLUSTER_SLOTS
      modifies slots, all`slots, all`numslots
      ensures Valid()
      ensures State() == old(State()).(owner := ClaimedOwner(old(State()), sender.name, epoch, bitmap))
      ensures newmaster != null <==>
                LosesSlot(old(slots[..]), curmaster, Taken(old(State()), sender.name, epoch, bitmap), CLUSTER_SLOTS)
      ensures dirty == DirtySlots(old(slots[..]), myself, Taken(old(State()), sender.name, epoch, bitmap), keys,
                                  CLUSTER_SLOTS)
    {
      hide DirtySlots, LosesSlot, Agree, ClaimedOwner;
      ghost var s, table := State(), slots[..];
      ghost var won := Taken(s, sender.name, epoch, bitmap);
      forall j | 0 <= j < CLUSTER_SLOTS
        ensures j in won <==> && j in bitmap && slots[j] != sender && importing[j] == null
                              && (slots[j] == null || slots[j].configEpoch < epoch)
      {
        RebindsTest(sender, epoch, bitmap, j);
      }
      OwnerOfRebound(s, table, sender, epoch, bitmap);
      newmaster, dirty := RebindSlots(sender, epoch, bitmap, keys, curmaster, won);
      assert Peers() == old(Peers());
    }

    /** A counter of zero means that the table gives the node no slot. */
    lemma NoSlotsLeft(n: ClusterNode)
      requires Valid() && n in all
      ensures n.numslots == 0 <==> n.name !in OwnerOf(slots[..]).Values
    {
      var owner := OwnerOf(slots[..]);
      if n.name in owner.Values {
        var j :| j in owner && owner[j] == n.name;
        assert Known(slots[j]) && Known(n);
        assert j in n.slots;
      }
      if n.numslots != 0 {
        assert n.slots != {};
        var j :| j in n.slots;
        assert owner[j] == n.name;
      }
    }

    /** A master's configuration arrives: rebind what it may take, and follow it if that leaves our
        master without slots.  Returns the slots this node lost that still hold keys, unless it
        became a replica: their keys must be deleted. */
    method UpdateSlotsConfigWith(sender: ClusterNode, epoch: nat, bitmap: set<Slot>, keys: seq<nat>)
      returns (dirty: seq<Slot>, outcome: Outcome)
      requires Valid() && sender in all && |keys| == CLUSTER_SLOTS
      requires forall j | j in bitmap :: j < CLUSTER_SLOTS
      modifies slots, all`slots, all`numslots, myself`isMaster, myself`slaveof, importing, migrating
      ensures Valid()
      ensures outcome.NullDereference? <==> MissesMaster(old(State()), sender.name, epoch, bitmap)
      ensures outcome.AssertFailed? <==> KeepsSlots(old(State()), sender.name, epoch, bitmap)
      ensures outcome.Done? ==>
                && State() == ClaimSlots(old(State()), sender.name, epoch, bitmap)
                && dirty == if sender == myself || Deposed(old(State()), sender.name, epoch, bitmap) then []
                            else DirtySlots(old(slots[..]), myself, Taken(old(State()), sender.name, epoch, bitmap),
                                            keys, CLUSTER_SLOTS)
    {
      hide DirtySlots, Rebinds, OwnerOf;
      if sender == myself { return [], Done; }
      assert Known(sender);
      var curmaster := if myself.isMaster then myself else myself.slaveof;
      ghost var s, table := State(), slots[..];
      assert curmaster != null ==> Known(curmaster);
      DeposedTest(s, table, curmaster, sender.name, epoch, bitmap) by { assert s.owner == OwnerOf(table); }
      MissesTest(s, table, curmaster, sender.name, epoch, bitmap);
      var newmaster;
      newmaster, dirty := Claim(sender, epoch, bitmap, keys, curmaster);
      if curmaster != null { NoSlotsLeft(curmaster); }
      NoSlotsLeft(myself);
      if newmaster != null && curmaster == null { return [], NullDereference; }
      if newmaster != null && curmaster.numslots == 0 {
        var ok := SetMaster(sender);
        return [], if ok then Done else AssertFailed;
      }
      outcome := Done;
    }

    // ---------- epochs ----------

    /** The greatest config epoch of any node, or the current epoch if that is greater. */
    method GetMaxEpoch() returns (max: nat)
      requires Valid()
      ensures max == MaxEpoch(State())
    {
      max := 0;
      var rest := nodes.Keys;
      while rest != {}
        invariant rest <= nodes.Keys
        invariant forall id | id in nodes && id !in rest :: nodes[id].configEpoch <= max
        invariant max == 0 || exists id | id in nodes :: nodes[id].configEpoch == max
      {
        var id :| id in rest;
        if nodes[id].configEpoch > max { max := nodes[id].configEpoch; }
        rest := rest - {id};
      }
      if max < currentEpoch { max := currentEpoch; }
      ghost var s := State();
      assert forall id | id in nodes :: s.peers[id].configEpoch == nodes[id].configEpoch;
    }

    method SetEpochs(current: nat, n: ClusterNode, config: nat)
      requires Valid() && n in all
      modifies this`currentEpoch, n`configEpoch
      ensures Valid()
      ensures var s := old(State());
              State() == SetPeer(s.(currentEpoch := current), n.name, s.peers[n.name].(configEpoch := config))
    {
      hide OwnerOf, ImportsOf, SlotsIn, WellFormed, Agree;
      NodeFacts(n);
      currentEpoch, n.configEpoch := current, config;
      OneNodeChanged(n);
    }

    /** Every packet from a known node first raises the epochs this node knows. */
    method ProcessHeader(h: Header) returns (sender: ClusterNode?)
      requires Valid()
      modifies this`currentEpoch, all`configEpoch
      ensures Valid() && State() == SeeEpochs(old(State()), h)
      ensures sender == if h.src in nodes then nodes[h.src] else null
    {
      if h.src !in nodes { return null; }
      sender := nodes[h.src];
      SetEpochs(if h.currentEpoch > currentEpoch then h.currentEpoch else currentEpoch, sender,
                if h.configEpoch > sender.configEpoch then h.configEpoch else sender.configEpoch);
    }

    method BumpConfigEpochWithoutConsensus() returns (ok: bool)
      requires Valid()
      modifies this`currentEpoch, myself`configEpoch
      ensures Valid() && (State(), ok) == Bump(old(State()))
    {
      hide MaxEpoch, OwnerOf, ImportsOf, Agree;
      var max := GetMaxEpoch();
      if myself.configEpoch == 0 || myself.configEpoch != max {
        SetEpochs(currentEpoch + 1, myself, currentEpoch + 1);
        return true;
      }
      return false;
    }

    method HandleConfigEpochCollision(sender: ClusterNode)
      requires Valid() && sender in all
      modifies this`currentEpoch, myself`configEpoch
      ensures Valid() && State() == ResolveCollision(old(State()), sender.name)
    {
      hide OwnerOf, ImportsOf, SlotsIn, WellFormed, Agree;
      NodeFacts(sender);
      NodeFacts(myself);
      if sender.configEpoch != myself.configEpoch || !sender.isMaster || !myself.isMaster { return; }
      if sender.name <= myself.name { return; }
      SetEpochs(currentEpoch + 1, myself, currentEpoch + 1);
    }

    // ---------- packets that carry configuration ----------

    /** The node is a master from now on. */
    method SetNodeAsMaster(n: ClusterNode)
      requires Valid() && n in all
      modifies n`isMaster, n`slaveof
      ensures Valid()
      ensures var s := old(State()); State() == SetPeer(s, n.name, s.peers[n.name].(role := Master))
    {
      hide OwnerOf, ImportsOf, SlotsIn, WellFormed, Agree;
      NodeFacts(n);
      if !n.isMaster { n.isMaster, n.slaveof := true, null; }
      OneNodeChanged(n);
    }

    method RemoveSlots(n: ClusterNode)
      requires Valid() && n in all
      modifies slots, all`slots, all`numslots
      ensures Valid()
      ensures var s := old(State()); State() == s.(owner := s.owner - SlotsOf(s, n.name))
    {
      assert Known(n);
      OwnerOfRemoved(State(), slots[..], n);
      var deleted := DelNodeSlots(n);
      assert Peers() == old(Peers());
    }

    method MarkReplica(n: ClusterNode)
      requires Valid() && n in all && n.isMaster
      modifies n`isMaster
      ensures Valid() && !n.isMaster
      ensures var s := old(State()); State() == SetPeer(s, n.name, s.peers[n.name].(role := Replica(None)))
    {
      hide OwnerOf, ImportsOf, SlotsIn, WellFormed, Agree;
      NodeFacts(n);
      n.isMaster := false;
      OneNodeChanged(n);
    }

    /** A master has become a replica: it serves nothing any more. */
    method Demote(n: ClusterNode)
      requires Valid() && n in all && n.isMaster
      modifies slots, all`slots, all`numslots, n`isMaster
      ensures Valid() && !n.isMaster
      ensures var s := old(State());
              State() == SetPeer(s.(owner := s.owner - SlotsOf(s, n.name)), n.name,
                                 s.peers[n.name].(role := Replica(None)))
    {
      hide OwnerOf, ImportsOf, SlotsIn, Agree, SlotsOf;
      RemoveSlots(n);
      MarkReplica(n);
    }

    method SetReplicaOf(n: ClusterNode, master: ClusterNode)
      requires Valid() && n in all && master in all && !n.isMaster
      modifies n`slaveof
      ensures Valid()
      ensures var s := old(State()); State() == SetPeer(s, n.name, s.peers[n.name].(role := Replica(Some(master.name))))
    {
      hide OwnerOf, ImportsOf, SlotsIn, WellFormed, Agree;
      NodeFacts(n);
      NodeFacts(master);
      if n.slaveof != master { n.slaveof := master; }
      OneNodeChanged(n);
    }

    /** The sender announces itself as a master, or as the replica of some node. */
    method SwitchRoleOf(sender: ClusterNode, h: Header)
      requires Valid() && sender in all && sender.name == h.src
      modifies slots, all`slots, all`numslots, sender`isMaster, sender`slaveof
      ensures Valid() && State() == SwitchRole(old(State()), h)
    {
      hide OwnerOf, ImportsOf, SlotsIn, Agree, SlotsOf;
      assert Known(sender);
      ghost var s := State();
      assert s.peers[h.src] == PeerOf(sender);
      if h.slaveof.None? {
        SetNodeAsMaster(sender);
      } else {
        var master := if h.slaveof.value in nodes then nodes[h.slaveof.value] else null;
        if sender.isMaster { Demote(sender); }
        if master != null { SetReplicaOf(sender, master); }
        var of := if h.slaveof.value in nodes then Some(h.slaveof.value)
                  else if s.peers[h.src].role.Replica? then s.peers[h.src].role.of else None;
        assert State().peers == s.peers[h.src := s.peers[h.src].(role := Replica(of))];
      }
    }

    lemma BitmapIsSlotsOf(n: ClusterNode)
      requires Valid() && n in all
      ensures n.slots == SlotsOf(State(), n.name)
    {
      assert Known(n);
      forall j ensures j in n.slots <==> j in SlotsOf(State(), n.name) {
        if 0 <= j < CLUSTER_SLOTS && slots[j] != null { assert Known(slots[j]); }
      }
    }

    /** The test for a collision of epochs with the sender, and its resolution. */
    method CheckCollision(sender: ClusterNode, h: Header)
      requires Valid() && sender in all && sender.name == h.src
      modifies this`currentEpoch, myself`configEpoch
      ensures Valid()
      ensures var s := old(State());
              State() == if IsMaster(s, s.me) && IsMaster(s, h.src) && h.configEpoch == EpochOf(s, s.me)
                         then ResolveCollision(s, h.src) else s
    {
      hide OwnerOf, ImportsOf, SlotsIn, Agree, WellFormed, ResolveCollision;
      NodeFacts(sender);
      NodeFacts(myself);
      if myself.isMaster && sender.isMaster && h.configEpoch == myself.configEpoch {
        HandleConfigEpochCollision(sender);
      }
    }

    /** A master that announces other slots than the table gives it claims them. */
    method CheckClaim(sender: ClusterNode, h: Header, keys: seq<nat>) returns (dirty: seq<Slot>, outcome: Outcome)
      requires Valid() && sender in all && sender.name == h.src
      requires |keys| == CLUSTER_SLOTS && forall j | j in h.slots :: j < CLUSTER_SLOTS
      modifies slots, all`slots, all`numslots, myself`isMaster, myself`slaveof, importing, migrating
      ensures Valid()
      ensures var s := old(State());
              var claims := IsMaster(s, h.src) && SlotsOf(s, h.src) != h.slots;
              && (outcome.Done? <==> !(claims && Stops(s, h.src, h.configEpoch, h.slots)))
              && (outcome.Done? ==> State() == if claims then ClaimSlots(s, h.src, h.configEpoch, h.slots) else s)
    {
      hide OwnerOf, ImportsOf, SlotsIn, Agree, WellFormed, ClaimSlots, MissesMaster, KeepsSlots, SlotsOf;
      dirty, outcome := [], Done;
      NodeFacts(sender);
      BitmapIsSlotsOf(sender);
      if sender.isMaster && sender.slots != h.slots {
        dirty, outcome := UpdateSlotsConfigWith(sender, h.configEpoch, h.slots, keys);
      }
    }

    /** A ping or pong: the sender's epochs and role, then its slots, then a collision of epochs. */
    method ReceivePingPacket(h: Header, keys: seq<nat>) returns (dirty: seq<Slot>, outcome: Outcome)
      requires Valid() && |keys| == CLUSTER_SLOTS && forall j | j in h.slots :: j < CLUSTER_SLOTS
      modifies this`currentEpoch, slots, importing, migrating, all
      ensures Valid()
      ensures outcome.Done? <==> !PingStops(old(State()), h)
      ensures outcome.Done? ==> State() == ReceivePing(old(State()), h)
    {
      hide OwnerOf, ImportsOf, SlotsIn, Agree, SeeEpochs, SwitchRole, ClaimSlots, ResolveCollision, Stops, SlotsOf,
           IsMaster, EpochOf;
      dirty, outcome := [], Done;
      ghost var s := State();
      var sender := ProcessHeader(h);
      if sender == null { SeesNothing(s, h); return; }
      NodeFacts(myself);
      SwitchRoleOf(sender, h);
      dirty, outcome := CheckClaim(sender, h, keys);
      if outcome.Done? { CheckCollision(sender, h); }
    }

    /** The node is a master with this config epoch. */
    method NewMasterEpoch(n: ClusterNode, epoch: nat)
      requires Valid() && n in all
      modifies n`isMaster, n`slaveof, n`configEpoch
      ensures Valid()
      ensures var s := old(State());
              State() == SetPeer(s, n.name, s.peers[n.name].(role := Master, configEpoch := epoch))
    {
      hide OwnerOf, ImportsOf, SlotsIn, WellFormed, Agree;
      NodeFacts(n);
      if !n.isMaster { n.isMaster, n.slaveof := true, null; }
      n.configEpoch := epoch;
      OneNodeChanged(n);
    }

    /** An update: the configuration of some node, told by another. */
    method ReceiveUpdatePacket(m: Msg, keys: seq<nat>) returns (dirty: seq<Slot>, outcome: Outcome)
      requires m.Update? && Valid() && |keys| == CLUSTER_SLOTS && forall j | j in m.aboutSlots :: j < CLUSTER_SLOTS
      modifies this`currentEpoch, slots, importing, migrating, all
      ensures Valid()
      ensures outcome.Done? <==> !UpdateStops(old(State()), m)
      ensures outcome.Done? ==> State() == ReceiveUpdate(old(State()), m)
    {
      hide OwnerOf, ImportsOf, SlotsIn, Agree, SeeEpochs, ClaimSlots, MissesMaster, KeepsSlots;
      dirty, outcome := [], Done;
      ghost var s := State();
      var sender := ProcessHeader(m.h);
      SameKeys(s, m.h);
      if sender == null || m.about !in nodes { return; }
      var n := nodes[m.about];
      assert State().peers[m.about] == PeerOf(n);
      if n.configEpoch >= m.aboutEpoch { return; }
      NewMasterEpoch(n, m.aboutEpoch);
      dirty, outcome := UpdateSlotsConfigWith(n, m.aboutEpoch, m.aboutSlots, keys);
    }

    // ---------- elections ----------

    /** The slots a request claims are not served by a node with a newer configuration. */
    method ClaimsAreCurrent(h: Header) returns (current: bool)
      requires Valid() && forall j | j in h.slots :: j < CLUSTER_SLOTS
      ensures current <==> forall j | j in h.slots && j in State().owner ::
                             EpochOf(State(), State().owner[j]) <= h.configEpoch
    {
      hide Agree, ImportsOf;
      ghost var s := State();
      assert forall k | 0 <= k < CLUSTER_SLOTS && slots[k] != null ::
               Known(slots[k]) && s.owner[k] == slots[k].name && EpochOf(s, s.owner[k]) == slots[k].configEpoch;
      var j := 0;
      while j < CLUSTER_SLOTS
        invariant 0 <= j <= CLUSTER_SLOTS
        invariant forall k | 0 <= k < j && k in h.slots && slots[k] != null :: slots[k].configEpoch <= h.configEpoch
      {
        if j in h.slots && slots[j] != null && slots[j].configEpoch > h.configEpoch {
          assert EpochOf(s, s.owner[j]) > h.configEpoch;
          return false;
        }
        j := j + 1;
      }
      return true;
    }

    method RecordVote(master: ClusterNode, now: int)
      requires Valid() && master in all
      modifies this`lastVoteEpoch, master`votedTime
      ensures Valid()
      ensures var s := old(State());
              State() == SetPeer(s.(lastVoteEpoch := s.currentEpoch), master.name,
                                 s.peers[master.name].(votedTime := now))
    {
      hide OwnerOf, ImportsOf, SlotsIn, WellFormed, Agree;
      NodeFacts(master);
      lastVoteEpoch, master.votedTime := currentEpoch, now;
      OneNodeChanged(master);
    }

    /** Every condition for voting, in the order of the source. */
    method MayVote(node: ClusterNode, h: Header, now: int, nodeTimeout: int) returns (may: bool)
      requires Valid() && node in all && node.name == h.src
      requires forall j | j in h.slots :: j < CLUSTER_SLOTS
      ensures may <==> GrantsVote(State(), h, now, nodeTimeout)
    {
      var master := node.slaveof;
      ghost var s := State();
      assert Known(node) && s.peers[h.src] == PeerOf(node);
      assert master != null ==> Known(master) && s.peers[master.name] == PeerOf(master);
      NoSlotsLeft(myself);
      if !myself.isMaster || myself.numslots == 0 { return false; }
      if h.currentEpoch < currentEpoch { return false; }
      if lastVoteEpoch == currentEpoch { return false; }
      if node.isMaster || master == null || (!master.failed && !h.forceAck) { return false; }
      if now - master.votedTime < nodeTimeout * 2 { return false; }
      may := ClaimsAreCurrent(h);
    }

    /** Vote for the replica asking for our vote, if every condition holds. */
    method SendFailoverAuthIfNeeded(node: ClusterNode, h: Header, now: int, nodeTimeout: int) returns (granted: bool)
      requires Valid() && node in all && node.name == h.src
      requires forall j | j in h.slots :: j < CLUSTER_SLOTS
      modifies this`lastVoteEpoch, all`votedTime
      ensures Valid() && (State(), granted) == VoteIfGranted(old(State()), h, now, nodeTimeout)
    {
      granted := MayVote(node, h, now, nodeTimeout);
      if granted {
        hide GrantsVote;
        VotesForMaster(node, h, now, nodeTimeout);
        RecordVote(node.slaveof, now);
      }
    }

    lemma VotesForMaster(node: ClusterNode, h: Header, now: int, nodeTimeout: int)
      requires Valid() && node in all && node.name == h.src && GrantsVote(State(), h, now, nodeTimeout)
      ensures node.slaveof != null && node.slaveof in all
      ensures State().peers[h.src].role == Replica(Some(node.slaveof.name))
    {
      assert Known(node);
    }

    /** An ack counts if it comes from a master with slots and is not older than our election. */
    method ReceiveAuthAck(sender: ClusterNode, h: Header)
      requires Valid() && sender in all && sender.name == h.src
      modifies this`auth
      ensures Valid()
      ensures var s := old(State());
              State() == if CountsAck(s, h) then s.(auth := s.auth.(count := s.auth.count + 1)) else s
    {
      assert Known(sender);
      NoSlotsLeft(sender);
      if sender.isMaster && sender.numslots > 0 && h.currentEpoch >= auth.epoch {
        auth := auth.(count := auth.count + 1);
      }
    }

    /** The preconditions of a failover. */
    method MayStartFailover(e: Env) returns (may: bool)
      requires Valid()
      ensures may <==> MayFailover(State(), e)
    {
      var master := myself.slaveof;
      ghost var s := State();
      assert s.peers[s.me] == PeerOf(myself);
      assert master != null ==> Known(master) && s.peers[master.name] == PeerOf(master);
      if master != null { NoSlotsLeft(master); }
      may := !(myself.isMaster || master == null || (!master.failed && !e.manual)
               || (e.noFailover && !e.manual) || master.numslots == 0);
      if e.tooOld && !e.manual { may := false; }
    }

    method SetElection(epoch: nat, a: Auth)
      requires Valid()
      modifies this`currentEpoch, this`auth
      ensures Valid() && State() == old(State()).(currentEpoch := epoch, auth := a)
    {
      currentEpoch, auth := epoch, a;
      assert Peers() == old(Peers());
    }

    lemma MayFailoverFacts(e: Env)
      requires Valid() && MayFailover(State(), e)
      ensures !myself.isMaster && myself.slaveof != null
      ensures State().peers[myself.name].role == Replica(Some(myself.slaveof.name))
    {
    }

    /** Schedule an election, ask for votes, or take over after winning one. */
    method HandleSlaveFailover(e: Env) returns (action: Action)
      requires Valid()
      modifies this`currentEpoch, this`auth, slots, all`slots, all`numslots
      modifies myself`isMaster, myself`slaveof, myself`configEpoch
      ensures Valid() && (State(), action) == HandleFailover(old(State()), e)
    {
      hide MayFailover, Schedule, Reowned, PeerOf, OwnerOf, ImportsOf, Agree;
      var authAge := e.now - auth.time;
      var may := MayStartFailover(e);
      if !may { return Idle; }
      MayFailoverFacts(e);
      if authAge > AuthTimeout(e) * 2 {
        SetElection(currentEpoch, Schedule(auth, e));
        return Scheduled;
      }
      if !auth.sent && !e.mfEnd && e.rank > auth.rank {
        SetElection(currentEpoch, auth.(time := auth.time + (e.rank - auth.rank) * 1000, rank := e.rank));
      }
      if e.now < auth.time || authAge > AuthTimeout(e) { return Idle; }
      if !auth.sent {
        SetElection(currentEpoch + 1, auth.(epoch := currentEpoch + 1, sent := true));
        return Requested;
      }
      if auth.count < Quorum(size) { return Idle; }
      WinElection();
      return Action.Won;
    }

    /** Take the election's epoch as config epoch, and the master's place. */
    method WinElection()
      requires Valid() && !myself.isMaster && myself.slaveof != null
      requires State().peers[myself.name].role == Replica(Some(myself.slaveof.name))
      modifies this`currentEpoch, slots, all`slots, all`numslots
      modifies myself`isMaster, myself`slaveof, myself`configEpoch
      ensures Valid()
      ensures var s := old(State());
              State() == TakeOver(WithMyEpoch(s, Max(EpochOf(s, s.me), s.auth.epoch)))
    {
      hide Reowned, OwnerOf, ImportsOf, Agree;
      SetEpochs(currentEpoch, myself, if myself.configEpoch < auth.epoch then auth.epoch else myself.configEpoch);
      FailoverReplaceYourMaster();
    }

    lemma VoterTest(id: NodeId)
      requires Valid() && id in nodes
      ensures nodes[id].isMaster && nodes[id].numslots != 0 <==> id in Electorate(State())
    {
      NoSlotsLeft(nodes[id]);
    }

    lemma VotersAreNodes()
      requires Valid()
      ensures Electorate(State()) <= nodes.Keys
    {
    }

    /** The cluster size: the masters that serve at least one slot. */
    method ComputeSize()
      requires Valid()
      modifies this`size
      ensures Valid() && State() == UpdateState(old(State()))
    {
      hide Electorate, OwnerOf, ImportsOf, SlotsIn;
      forall id | id in nodes { VoterTest(id); }
      VotersAreNodes();
      var count := CountVoters(Electorate(State()));
      size := count;
      assert Peers() == old(Peers());
    }

    method CountVoters(ghost voters: set<NodeId>) returns (count: nat)
      requires voters <= nodes.Keys
      requires forall id | id in nodes :: nodes[id].isMaster && nodes[id].numslots != 0 <==> id in voters
      ensures count == |voters|
    {
      count := 0;
      var rest := nodes.Keys;
      ghost var seen: set<NodeId> := {};
      while rest != {}
        invariant rest <= nodes.Keys && count == |seen|
        invariant seen == voters - rest
      {
        var id :| id in rest;
        if nodes[id].isMaster && nodes[id].numslots != 0 {
          count := count + 1;
          seen := seen + {id};
        }
        rest := rest - {id};
      }
      assert seen == voters;
    }

    // ---------- forgetting a node ----------

    method ClearReplicas(n: ClusterNode)
      requires Valid()
      modifies all`slaveof
      ensures Valid()
      ensures forall m | m in all :: m.slaveof == if old(m.slaveof) == n then null else old(m.slaveof)
    {
      var rest := nodes.Keys;
      while rest != {}
        invariant rest <= nodes.Keys && Valid()
        invariant forall m | m in all :: m.slaveof == if old(m.slaveof) == n && m.name !in rest then null
                                                      else old(m.slaveof)
      {
        var id :| id in rest;
        if nodes[id].slaveof == n { nodes[id].slaveof := null; }
        rest := rest - {id};
      }
    }

    /** Remove a node: its slots become unassigned, its replicas lose their master. */
    method DelNode(n: ClusterNode)
      requires Valid() && n in all && n != myself
      modifies this`nodes, this`all, slots, importing, migrating, all`slots, all`numslots, all`slaveof
      ensures Valid()
      ensures migrating[..] == Replaced(old(migrating[..]), n, null, CLUSTER_SLOTS)
      ensures nodes == old(nodes) - {n.name} && all == old(all) - {n}
      ensures slots[..] == Replaced(old(slots[..]), n, null, CLUSTER_SLOTS)
      ensures importing[..] == Replaced(old(importing[..]), n, null, CLUSTER_SLOTS)
      ensures forall m | m in all :: m.slaveof == if old(m.slaveof) == n then null else old(m.slaveof)
    {
      CloseMoves(n);
      var deleted := DelNodeSlots(n);
      ClearReplicas(n);
      Forget(n);
    }

    method CloseMoves(n: ClusterNode)
      requires Valid()
      modifies importing, migrating
      ensures Valid() && importing[..] == Replaced(old(importing[..]), n, null, CLUSTER_SLOTS)
      ensures migrating[..] == Replaced(old(migrating[..]), n, null, CLUSTER_SLOTS)
    {
      forall j | 0 <= j < importing.Length { importing[j] := if importing[j] == n then null else importing[j]; }
      forall j | 0 <= j < migrating.Length { migrating[j] := if migrating[j] == n then null else migrating[j]; }
      assert slots[..] == old(slots[..]);
    }

    /** A replica's master is removed, and then any other node claims a slot that this master served or that
        nobody did: the null dereference. The command CLUSTER FORGET refuses to remove the node's own master;
        the removal of nodes whose handshake timed out does not ask. */
    method ClaimAfterRemoval(master: ClusterNode, sender: ClusterNode, epoch: nat, bitmap: set<Slot>,
                             keys: seq<nat>, slot: Slot)
      returns (outcome: Outcome)
      requires Valid() && !myself.isMaster && myself.slaveof == master && master != myself
      requires sender in all && sender != myself && sender != master && |keys| == CLUSTER_SLOTS
      requires forall j | j in bitmap :: j < CLUSTER_SLOTS
      requires slot in bitmap && slot < CLUSTER_SLOTS
      requires (slots[slot] == master || slots[slot] == null) && (importing[slot] == master || importing[slot] == null)
      modifies this`nodes, this`all, slots, importing, migrating, all`slots, all`numslots, all`slaveof
      modifies myself`isMaster, myself`slaveof
      ensures outcome.NullDereference?
    {
      hide OwnerOf, ImportsOf, SlotsIn, Agree;
      NodeFacts(myself);
      DelNode(master);
      NodeFacts(myself);
      assert slots[slot] == slots[..][slot] == null && importing[slot] == importing[..][slot] == null;
      RebindsTest(sender, epoch, bitmap, slot);
      Unassigned(slot);
      var dirty;
      dirty, outcome := UpdateSlotsConfigWith(sender, epoch, bitmap, keys);
    }

    lemma Unassigned(slot: Slot)
      requires WellFormed() && slot < CLUSTER_SLOTS && slots[slot] == null
      ensures slot !in State().owner
    {
    }

    /** Drop a node that nothing refers to any more. */
    method Forget(n: ClusterNode)
      requires Valid() && n in all && n != myself
      requires forall j | 0 <= j < CLUSTER_SLOTS :: slots[..][j] != n
      requires forall m | m in all :: m.slaveof != n
      modifies this`nodes, this`all
      ensures Valid() && nodes == old(nodes) - {n.name} && all == old(all) - {n}
    {
      assert Known(n);
      nodes, all := nodes - {n.name}, all - {n};
    }
  }

  /** The table with the first n entries x replaced by y. */
  ghost function Replaced(table: seq<ClusterNode?>, x: ClusterNode, y: ClusterNode?, n: nat): seq<ClusterNode?>
    requires n <= |table|
  {
    seq(|table|, j requires 0 <= j < |table| => if j < n && table[j] == x then y else table[j])
  }

  lemma ReplacedNext(table: seq<ClusterNode?>, x: ClusterNode, y: ClusterNode?, n: nat)
    requires n < |table|
    ensures Replaced(table, x, y, n)[n] == table[n]
    ensures Replaced(table, x, y, n + 1)
            == if table[n] == x then Replaced(table, x, y, n)[n := y] else Replaced(table, x, y, n)
  {
  }

  lemma OwnerOfReplaced(table: seq<ClusterNode?>, x: ClusterNode, y: ClusterNode)
    requires forall j | 0 <= j < |table| && table[j] != null && table[j].name == x.name :: table[j] == x
    ensures var owner := OwnerOf(table);
            OwnerOf(Replaced(table, x, y, |table|)) == Reowned(owner, x.name, y.name)
  {
  }

  /** The table with the slots of won below n given to the claimant. */
  ghost function Rebound(table: seq<ClusterNode?>, to: ClusterNode, won: set<Slot>, n: nat): seq<ClusterNode?>
    requires n <= |table|
  {
    seq(|table|, j requires 0 <= j < |table| => if j < n && j in won then to else table[j])
  }

  lemma ReboundNext(table: seq<ClusterNode?>, to: ClusterNode, won: set<Slot>, n: nat)
    requires n < |table|
    ensures Rebound(table, to, won, n)[n] == table[n]
    ensures Rebound(table, to, won, n + 1)
            == if n in won then Rebound(table, to, won, n)[n := to] else Rebound(table, to, won, n)
  {
  }

  /** A slot of x is among those won; with null for x, an unassigned one. */
  ghost predicate LosesSlot(table: seq<ClusterNode?>, x: ClusterNode?, won: set<Slot>, n: nat)
    requires n <= |table|
  {
    exists j | 0 <= j < n :: j in won && table[j] == x
  }

  lemma ScanStart(table: seq<ClusterNode?>, to: ClusterNode, x: ClusterNode?, won: set<Slot>, keys: seq<nat>,
                  me: ClusterNode)
    requires |table| == |keys|
    ensures Rebound(table, to, won, 0) == table && !LosesSlot(table, x, won, 0)
            && DirtySlots(table, me, won, keys, 0) == []
  {
  }

  lemma ScanNext(table: seq<ClusterNode?>, to: ClusterNode, x: ClusterNode?, won: set<Slot>, keys: seq<nat>,
                 me: ClusterNode, n: nat)
    requires n < |table| == |keys|
    ensures Rebound(table, to, won, n)[n] == table[n]
    ensures Rebound(table, to, won, n + 1)
            == if n in won then Rebound(table, to, won, n)[n := to] else Rebound(table, to, won, n)
    ensures LosesSlot(table, x, won, n + 1) <==> LosesSlot(table, x, won, n) || (n in won && table[n] == x)
    ensures DirtySlots(table, me, won, keys, n + 1)
            == DirtySlots(table, me, won, keys, n) + if n in won && table[n] == me && keys[n] != 0 then [n] else []
  {
    ReboundNext(table, to, won, n);
  }

  /** The slots below n that were this node's, are lost, and still hold keys. */
  ghost function DirtySlots(table: seq<ClusterNode?>, me: ClusterNode, won: set<Slot>, keys: seq<nat>,
                            n: nat): seq<Slot>
    requires n <= |table| == |keys|
  {
    if n == 0 then []
    else DirtySlots(table, me, won, keys, n - 1)
         + if n - 1 in won && table[n - 1] == me && keys[n - 1] != 0 then [n - 1] else []
  }

  /** The slots a claim takes. */
  ghost function Taken(s: Node, claimant: NodeId, epoch: nat, bitmap: set<Slot>): set<Slot> {
    set j | j in bitmap && Rebinds(s, claimant, epoch, bitmap, j)
  }

  lemma OwnerOfRebound(s: Node, table: seq<ClusterNode?>, to: ClusterNode, epoch: nat, bitmap: set<Slot>)
    requires s.owner == OwnerOf(table)
    requires forall j | j in bitmap :: j < |table|
    ensures OwnerOf(Rebound(table, to, Taken(s, to.name, epoch, bitmap), |table|))
            == ClaimedOwner(s, to.name, epoch, bitmap)
  {
    var won := Taken(s, to.name, epoch, bitmap);
    var t := Rebound(table, to, won, |table|);
    forall j ensures j in OwnerOf(t) <==> j in ClaimedOwner(s, to.name, epoch, bitmap) {
      assert j in won <==> Rebinds(s, to.name, epoch, bitmap, j);
    }
  }

  /** The scan's test for having lost a slot of our master, in the value model's terms. */
  lemma DeposedTest(s: Node, table: seq<ClusterNode?>, curmaster: ClusterNode?, claimant: NodeId, epoch: nat,
                    bitmap: set<Slot>)
    requires s.owner == OwnerOf(table)
    requires MyMaster(s) == if curmaster == null then None else Some(curmaster.name)
    requires curmaster != null ==>
               forall j | 0 <= j < |table| && table[j] != null && table[j].name == curmaster.name ::
               table[j] == curmaster
    ensures Deposed(s, claimant, epoch, bitmap)
            <==> && curmaster != null
                 && LosesSlot(table, curmaster, Taken(s, claimant, epoch, bitmap), |table|)
                 && curmaster.name !in ClaimedOwner(s, claimant, epoch, bitmap).Values
  {
    var won := Taken(s, claimant, epoch, bitmap);
    if curmaster != null {
      if LosesSlot(table, curmaster, won, |table|) {
        var j :| 0 <= j < |table| && j in won && table[j] == curmaster;
        assert s.owner[j] == curmaster.name;
      }
      if j :| j in s.owner && s.owner[j] == curmaster.name && Rebinds(s, claimant, epoch, bitmap, j) {
        assert table[j] == curmaster && j in won;
      }
    }
  }

  lemma MissesTest(s: Node, table: seq<ClusterNode?>, curmaster: ClusterNode?, claimant: NodeId, epoch: nat,
                   bitmap: set<Slot>)
    requires s.owner == OwnerOf(table) && claimant != s.me
    requires MyMaster(s) == if curmaster == null then None else Some(curmaster.name)
    requires forall j | j in bitmap :: j < |table|
    ensures MissesMaster(s, claimant, epoch, bitmap)
            <==> curmaster == null && LosesSlot(table, curmaster, Taken(s, claimant, epoch, bitmap), |table|)
  {
    var won := Taken(s, claimant, epoch, bitmap);
    if curmaster == null && LosesSlot(table, null, won, |table|) {
      var j :| 0 <= j < |table| && j in won && table[j] == null;
      assert j in bitmap && j !in s.owner;
    }
    if MissesMaster(s, claimant, epoch, bitmap) {
      var j :| j in bitmap && j !in s.owner && Rebinds(s, claimant, epoch, bitmap, j);
      assert j in won && table[j] == null;
    }
  }

  /** Without the entries of x the table gives x no slot. */
  lemma OwnerOfRemoved(s: Node, table: seq<ClusterNode?>, x: ClusterNode)
    requires s.owner == OwnerOf(table)
    requires forall j | 0 <= j < |table| && table[j] != null && table[j].name == x.name :: table[j] == x
    ensures OwnerOf(Replaced(table, x, null, |table|)) == s.owner - SlotsOf(s, x.name)
  {
  }
}
