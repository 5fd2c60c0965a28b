/** One node's view of a Redis Cluster, as a value, and what each cluster-bus
    event does to it.

    These functions are the specification that `ClusterServer` (the in-place
    code) is proved against and that `ClusterProtocol` (many nodes and packets
    in flight) runs.  Epochs are unbounded: 64-bit wrap-around is not modelled. */
module ClusterState {
  import opened Common

  const CLUSTER_SLOTS: nat := 16384

  /** Node names are fixed-length strings compared with memcmp: only their total order matters. */
  type NodeId = nat

  type Slot = nat

  datatype Role = Master | Replica(of: Option<NodeId>)

  /** What a node knows about one node of the cluster, itself included. */
  datatype Peer = Peer(configEpoch: nat, role: Role, failed: bool, votedTime: int)

  /** The failover_auth_* fields: this node's own election, if it is a replica. */
  datatype Auth = Auth(time: int, count: nat, sent: bool, rank: nat, epoch: nat)

  datatype Node = Node(
    me: NodeId,
    currentEpoch: nat,
    lastVoteEpoch: nat,
    peers: map<NodeId, Peer>,
    owner: map<Slot, NodeId>,
    importing: set<Slot>,
    size: nat,
    auth: Auth)

  datatype Header = Header(
    src: NodeId,
    dst: NodeId,
    currentEpoch: nat,
    configEpoch: nat,
    slaveof: Option<NodeId>,
    slots: set<Slot>,
    forceAck: bool)

  datatype Msg =
    | Ping(h: Header)
    | AuthRequest(h: Header)
    | AuthAck(h: Header)
    | Update(h: Header, about: NodeId, aboutEpoch: nat, aboutSlots: set<Slot>)

  function Max(a: nat, b: nat): nat { if a < b then b else a }

  function EpochOf(n: Node, id: NodeId): nat {
    if id in n.peers then n.peers[id].configEpoch else 0
  }

  predicate IsMaster(n: Node, id: NodeId) {
    id in n.peers && n.peers[id].role.Master?
  }

  /** numslots > 0, by the agreement between slot table and bitmaps that `ClusterServer` keeps. */
  predicate Serves(n: Node, id: NodeId) {
    id in n.owner.Values
  }

  /** The slots that node id serves in n's view: its bitmap. */
  function SlotsOf(n: Node, id: NodeId): set<Slot> {
    set j | j in n.owner && n.owner[j] == id
  }

  function MyMaster(n: Node): Option<NodeId> {
    if n.me in n.peers && n.peers[n.me].role.Replica? then n.peers[n.me].role.of else Some(n.me)
  }

  /** As a replica this node serves no slot itself. */
  predicate IdleReplica(n: Node) {
    n.me in n.peers && (n.peers[n.me].role.Replica? ==> !Serves(n, n.me))
  }

  function SetPeer(n: Node, id: NodeId, p: Peer): Node {
    n.(peers := n.peers[id := p])
  }

  // ---------- building and receiving packets ----------

  /** A master announces itself; a replica announces its master's epoch and slots. */
  function BuildHeader(n: Node, dst: NodeId, force: bool): Header {
    var slaveof := if n.me in n.peers && n.peers[n.me].role.Replica? then n.peers[n.me].role.of else None;
    var master := if slaveof.Some? then slaveof.value else n.me;
    Header(n.me, dst, n.currentEpoch, EpochOf(n, master), slaveof, SlotsOf(n, master), force)
  }

  /** Every packet from a known node first raises the epochs this node knows. */
  function SeeEpochs(n: Node, h: Header): Node {
    if h.src !in n.peers then n
    else
      var p := n.peers[h.src];
      SetPeer(n.(currentEpoch := Max(n.currentEpoch, h.currentEpoch)),
              h.src, p.(configEpoch := Max(p.configEpoch, h.configEpoch)))
  }

  /** The sender announces itself as a master, or as the replica of some node. */
  function SwitchRole(n: Node, h: Header): Node
    requires h.src in n.peers
  {
    var p := n.peers[h.src];
    match h.slaveof
    case None => SetPeer(n, h.src, p.(role := Master))
    case Some(m) =>
      var of := if m in n.peers then Some(m) else if p.role.Replica? then p.role.of else None;
      var n' := if p.role.Master? then n.(owner := n.owner - SlotsOf(n, h.src)) else n;
      SetPeer(n', h.src, p.(role := Replica(of)))
  }

  // ---------- slot ownership ----------

  /** Slot j goes to the claimant: it is claimed, not already the claimant's, not being
      imported, and unassigned or held by a node with a smaller config epoch. */
  predicate Rebinds(n: Node, claimant: NodeId, epoch: nat, slots: set<Slot>, j: Slot) {
    && j in slots
    && j !in n.importing
    && (j in n.owner ==> n.owner[j] != claimant && EpochOf(n, n.owner[j]) < epoch)
  }

  function ClaimedOwner(n: Node, claimant: NodeId, epoch: nat, slots: set<Slot>): map<Slot, NodeId> {
    map j | j in n.owner.Keys + slots && (j in n.owner || Rebinds(n, claimant, epoch, slots, j)) ::
      if Rebinds(n, claimant, epoch, slots, j) then claimant else n.owner[j]
  }

  /** The node that this node serves or replicates lost a slot to the claimant and has none left. */
  predicate Deposed(n: Node, claimant: NodeId, epoch: nat, slots: set<Slot>) {
    && MyMaster(n).Some?
    && (exists j | j in n.owner :: n.owner[j] == MyMaster(n).value && Rebinds(n, claimant, epoch, slots, j))
    && MyMaster(n).value !in ClaimedOwner(n, claimant, epoch, slots).Values
  }

  function ClaimSlots(n: Node, claimant: NodeId, epoch: nat, slots: set<Slot>): Node
    requires n.me in n.peers
  {
    if claimant == n.me then n
    else
      var n' := n.(owner := ClaimedOwner(n, claimant, epoch, slots));
      if Deposed(n, claimant, epoch, slots) then
        SetPeer(n'.(importing := if n.peers[n.me].role.Master? then {} else n.importing),
                n.me, n.peers[n.me].(role := Replica(Some(claimant))))
      else n'
  }

  // ---------- config epochs ----------

  /** The greatest epoch known: of any node, or this node's current epoch. */
  ghost function MaxEpoch(n: Node): (m: nat)
    ensures n.currentEpoch <= m
    ensures forall id | id in n.peers :: n.peers[id].configEpoch <= m
    ensures m == n.currentEpoch || exists id | id in n.peers :: n.peers[id].configEpoch == m
  {
    MaxOver(n.peers, n.peers.Keys, n.currentEpoch)
  }

  ghost function MaxOver(peers: map<NodeId, Peer>, ids: set<NodeId>, base: nat): (m: nat)
    requires ids <= peers.Keys
    ensures base <= m
    ensures forall id | id in ids :: peers[id].configEpoch <= m
    ensures m == base || exists id | id in ids :: peers[id].configEpoch == m
  {
    if ids == {} then base
    else
      var id :| id in ids;
      MaxOver(peers, ids - {id}, Max(base, peers[id].configEpoch))
  }

  function WithMyEpoch(n: Node, epoch: nat): Node
    requires n.me in n.peers
  {
    SetPeer(n, n.me, n.peers[n.me].(configEpoch := epoch))
  }

  /** Take a new config epoch without consensus; false when this node already has the greatest. */
  ghost function Bump(n: Node): (Node, bool)
    requires n.me in n.peers
  {
    if EpochOf(n, n.me) == 0 || EpochOf(n, n.me) != MaxEpoch(n) then
      (WithMyEpoch(n.(currentEpoch := n.currentEpoch + 1), n.currentEpoch + 1), true)
    else (n, false)
  }

  /** Two masters with the same config epoch: the one with the smaller name moves. */
  function ResolveCollision(n: Node, sender: NodeId): Node
    requires n.me in n.peers
  {
    if sender in n.peers && EpochOf(n, sender) == EpochOf(n, n.me)
       && IsMaster(n, sender) && IsMaster(n, n.me) && n.me < sender
    then WithMyEpoch(n.(currentEpoch := n.currentEpoch + 1), n.currentEpoch + 1)
    else n
  }

  // ---------- packets that carry configuration ----------

  function ReceivePing(n: Node, h: Header): Node
    requires n.me in n.peers
  {
    if h.src !in n.peers then n
    else
      var n1 := SwitchRole(SeeEpochs(n, h), h);
      var n2 := if IsMaster(n1, h.src) && SlotsOf(n1, h.src) != h.slots
                then ClaimSlots(n1, h.src, h.configEpoch, h.slots) else n1;
      if IsMaster(n2, n2.me) && IsMaster(n2, h.src) && h.configEpoch == EpochOf(n2, n2.me)
      then ResolveCollision(n2, h.src) else n2
  }

  function ReceiveUpdate(n: Node, m: Msg): Node
    requires m.Update? && n.me in n.peers
  {
    var n1 := SeeEpochs(n, m.h);
    if m.h.src !in n.peers || m.about !in n1.peers || m.aboutEpoch <= EpochOf(n1, m.about) then n1
    else
      var p := n1.peers[m.about];
      ClaimSlots(SetPeer(n1, m.about, p.(role := Master, configEpoch := m.aboutEpoch)),
                 m.about, m.aboutEpoch, m.aboutSlots)
  }

  // ---------- elections ----------

  /** Every condition under which a node votes for the sender of a request, after SeeEpochs. */
  predicate GrantsVote(n: Node, h: Header, now: int, nodeTimeout: int) {
    && IsMaster(n, n.me) && Serves(n, n.me)
    && n.currentEpoch <= h.currentEpoch
    && n.lastVoteEpoch != n.currentEpoch
    && h.src in n.peers
    && n.peers[h.src].role.Replica? && n.peers[h.src].role.of.Some?
    && (var m := n.peers[h.src].role.of.value;
        && m in n.peers
        && (n.peers[m].failed || h.forceAck)
        && nodeTimeout * 2 <= now - n.peers[m].votedTime)
    && (forall j | j in h.slots && j in n.owner :: EpochOf(n, n.owner[j]) <= h.configEpoch)
  }

  function VoteIfGranted(n: Node, h: Header, now: int, nodeTimeout: int): (Node, bool) {
    if GrantsVote(n, h, now, nodeTimeout) then
      var m := n.peers[h.src].role.of.value;
      (SetPeer(n.(lastVoteEpoch := n.currentEpoch), m, n.peers[m].(votedTime := now)), true)
    else (n, false)
  }

  function ReceiveRequest(n: Node, h: Header, now: int, nodeTimeout: int): (Node, bool) {
    VoteIfGranted(SeeEpochs(n, h), h, now, nodeTimeout)
  }

  predicate CountsAck(n: Node, h: Header) {
    IsMaster(n, h.src) && Serves(n, h.src) && n.auth.epoch <= h.currentEpoch
  }

  function ReceiveAck(n: Node, h: Header): Node {
    var n1 := SeeEpochs(n, h);
    if CountsAck(n1, h) then n1.(auth := n1.auth.(count := n1.auth.count + 1)) else n1
  }

  /** What clusterHandleSlaveFailover reads from outside the cluster state. */
  datatype Env = Env(
    now: int,
    nodeTimeout: int,
    manual: bool,      // mf_end != 0 && mf_can_start
    mfEnd: bool,       // mf_end != 0
    noFailover: bool,  // cluster_slave_no_failover
    tooOld: bool,      // the replica validity check fails
    delay: nat,        // 500 + random() % 500
    rank: nat)         // clusterGetSlaveRank()

  datatype Action = Idle | Scheduled | Requested | Won

  predicate MayFailover(n: Node, e: Env) {
    && n.me in n.peers
    && n.peers[n.me].role.Replica? && n.peers[n.me].role.of.Some?
    && (var m := n.peers[n.me].role.of.value;
        && m in n.peers
        && (n.peers[m].failed || e.manual)
        && (!e.noFailover || e.manual)
        && Serves(n, m)
        && (!e.tooOld || e.manual))
  }

  function AuthTimeout(e: Env): int { if e.nodeTimeout * 2 < 2000 then 2000 else e.nodeTimeout * 2 }

  function Quorum(size: nat): nat { size / 2 + 1 }

  function Schedule(a: Auth, e: Env): Auth {
    Auth(if e.mfEnd then e.now else e.now + e.delay + e.rank * 1000,
         0, false, if e.mfEnd then 0 else e.rank, a.epoch)
  }

  /** A scheduled election is pushed back when better replicas appear. */
  function Rerank(a: Auth, e: Env): Auth {
    if !a.sent && !e.mfEnd && a.rank < e.rank
    then a.(time := a.time + (e.rank - a.rank) * 1000, rank := e.rank) else a
  }

  function Reowned(owner: map<Slot, NodeId>, x: NodeId, y: NodeId): map<Slot, NodeId> {
    map j | j in owner :: if owner[j] == x then y else owner[j]
  }

  /** The replica becomes a master and takes every slot of its old master. */
  function TakeOver(n: Node): Node
    requires n.me in n.peers && n.peers[n.me].role.Replica? && n.peers[n.me].role.of.Some?
  {
    var loser := n.peers[n.me].role.of.value;
    SetPeer(n.(owner := Reowned(n.owner, loser, n.me)), n.me, n.peers[n.me].(role := Master))
  }

  function HandleFailover(n: Node, e: Env): (r: (Node, Action)) {
    if !MayFailover(n, e) then (n, Idle)
    else if AuthTimeout(e) * 2 < e.now - n.auth.time then
      (n.(auth := Schedule(n.auth, e)), Scheduled)
    else
      var n1 := n.(auth := Rerank(n.auth, e));
      if e.now < n1.auth.time || AuthTimeout(e) < e.now - n.auth.time then (n1, Idle)
      else if !n1.auth.sent then
        (n1.(currentEpoch := n1.currentEpoch + 1,
             auth := n1.auth.(epoch := n1.currentEpoch + 1, sent := true)), Requested)
      else if Quorum(n1.size) <= n1.auth.count then
        (TakeOver(WithMyEpoch(n1, Max(EpochOf(n1, n1.me), n1.auth.epoch))), Won)
      else (n1, Idle)
  }

  // ---------- cluster state ----------

  function Electorate(n: Node): set<NodeId> {
    set id | id in n.peers && n.peers[id].role.Master? && id in n.owner.Values
  }

  function UpdateState(n: Node): Node { n.(size := |Electorate(n)|) }

  function SetFailed(n: Node, id: NodeId, failed: bool): Node {
    if id in n.peers then SetPeer(n, id, n.peers[id].(failed := failed)) else n
  }
}
