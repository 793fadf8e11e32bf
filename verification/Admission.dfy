/** Who is let in: the projection of internal/netstate/project.go, the gate of
  cmd/qd-node/quic.go that `syncSessions` (cmd/qd-node/sessions.go) fills from it, and the
  `carried` and `allowExit` fields `whoami` (cmd/qd-node/control.go) tells a client.
  `sid` stands for the session id hash, which is never zero. */
module Admission {
  import opened Options

  datatype Role = Ingress | Egress | Other

  datatype Node = Node(id: int, role: Role, enable: bool, uuid: string)
  datatype Entrypoint = Entrypoint(id: int, nodeId: int, enable: bool)
  datatype Group = Group(id: int, allowExit: bool, entrypointIds: seq<int>)
  datatype Client = Client(uuid: string, groupId: int, enable: bool, expiryAt: int, allowExit: int)

  datatype Network = Network(nodes: seq<Node>, entrypoints: seq<Entrypoint>, groups: seq<Group>, clients: seq<Client>)

  const EXIT_ALLOW := 1
  const EXIT_DENY := 2

  function NodeOf(nodes: seq<Node>, id: int): Option<Node> {
    if nodes == [] then None else if nodes[0].id == id then Some(nodes[0]) else NodeOf(nodes[1..], id)
  }

  function GroupOf(groups: seq<Group>, id: int): Option<Group> {
    if groups == [] then None else if groups[0].id == id then Some(groups[0]) else GroupOf(groups[1..], id)
  }

  function MayExit(c: Client, g: Option<Group>): bool {
    if c.allowExit == EXIT_ALLOW then true
    else if c.allowExit == EXIT_DENY then false
    else g.Some? && g.value.allowExit
  }

  predicate Expired(expiryAt: int, now: int) { 0 < expiryAt < now }

  /** Some enabled entrypoint of the group stands on the node. */
  ghost predicate Stands(net: Network, id: int, g: Group) {
    exists e :: e in net.entrypoints && e.enable && e.nodeId == id && e.id in g.entrypointIds
  }

  // ----------------------------------------------------------- projection

  datatype CfgClient = CfgClient(uuid: string, expiryAt: int, allowExit: bool)
  datatype CfgPeer = CfgPeer(role: Role, session: nat)

  datatype Projection = NoSuchNode | NodeOff | UnknownRole | Config(clients: seq<CfgClient>, peers: seq<CfgPeer>)

  /** The client may be carried by the node: enabled, named, and its group reaches here. */
  ghost predicate Reaches(net: Network, id: int, c: Client) {
    c.enable && c.uuid != "" &&
    var g := GroupOf(net.groups, c.groupId); g.Some? && Stands(net, id, g.value)
  }

  function CfgOf(net: Network, c: Client): CfgClient {
    CfgClient(c.uuid, c.expiryAt, MayExit(c, GroupOf(net.groups, c.groupId)))
  }

  /** The projected clients, whatever order they are sorted into. */
  ghost predicate ClientsSpec(net: Network, id: int, upTo: nat, out: seq<CfgClient>)
    requires upTo <= |net.clients|
  {
    forall x :: x in out <==> exists k :: 0 <= k < upTo && Reaches(net, id, net.clients[k]) && x == CfgOf(net, net.clients[k])
  }

  method LocalEntrypoints(net: Network, id: int) returns (local: set<int>)
    ensures forall i :: i in local <==> exists e :: e in net.entrypoints && e.enable && e.nodeId == id && e.id == i
  {
    local := {};
    for k := 0 to |net.entrypoints|
      invariant forall i :: i in local <==> exists j :: 0 <= j < k && Local(net, id, i, j)
    {
      ghost var before := local;
      var e := net.entrypoints[k];
      if e.nodeId == id && e.enable { local := local + {e.id}; }
      forall i ensures i in local <==> exists j :: 0 <= j < k + 1 && Local(net, id, i, j) {
        if i in before { var j :| 0 <= j < k && Local(net, id, i, j); }
        if Local(net, id, i, k) { assert i in local; }
      }
    }
    forall i ensures i in local <==> exists e :: e in net.entrypoints && e.enable && e.nodeId == id && e.id == i {
      if e :| e in net.entrypoints && e.enable && e.nodeId == id && e.id == i {
        var j :| 0 <= j < |net.entrypoints| && net.entrypoints[j] == e;
        assert Local(net, id, i, j);
      }
    }
  }

  ghost predicate Local(net: Network, id: int, i: int, j: nat) {
    j < |net.entrypoints| && var e := net.entrypoints[j]; e.enable && e.nodeId == id && e.id == i
  }

  method ClientsReaching(net: Network, id: int) returns (out: seq<CfgClient>)
    ensures ClientsSpec(net, id, |net.clients|, out)
  {
    var local := LocalEntrypoints(net, id);
    out := [];
    for k := 0 to |net.clients|
      invariant ClientsSpec(net, id, k, out)
    {
      var c := net.clients[k];
      var g := GroupOf(net.groups, c.groupId);
      var reached := false;
      if c.enable && c.uuid != "" && g.Some? {
        reached := exists i :: i in g.value.entrypointIds && i in local;
      }
      assert reached <==> Reaches(net, id, c);
      ghost var before := out;
      if reached { out := out + [CfgOf(net, c)]; }
      OneMoreClient(net, id, k, before, out);
    }
  }

  lemma OneMoreClient(net: Network, id: int, k: nat, before: seq<CfgClient>, after: seq<CfgClient>)
    requires k < |net.clients| && ClientsSpec(net, id, k, before)
    requires after == before + if Reaches(net, id, net.clients[k]) then [CfgOf(net, net.clients[k])] else []
    ensures ClientsSpec(net, id, k + 1, after)
  {
  }

  predicate IsPeer(n: Node, role: Role, sid: string -> nat, p: CfgPeer) {
    n.role == role && n.enable && p == CfgPeer(role, if n.uuid != "" then sid(n.uuid) else 0)
  }

  ghost predicate PeersSpec(net: Network, role: Role, sid: string -> nat, out: seq<CfgPeer>) {
    forall p :: p in out <==> PeerIn(net.nodes, role, sid, p)
  }

  ghost predicate PeerIn(nodes: seq<Node>, role: Role, sid: string -> nat, p: CfgPeer) {
    exists n :: n in nodes && IsPeer(n, role, sid, p)
  }

  ghost predicate ProjectSpec(net: Network, id: int, sid: string -> nat, p: Projection) {
    match NodeOf(net.nodes, id)
    case None => p == NoSuchNode
    case Some(n) =>
      if !n.enable then p == NodeOff
      else if n.role == Ingress then
        p.Config? && ClientsSpec(net, id, |net.clients|, p.clients) && PeersSpec(net, Egress, sid, p.peers)
      else if n.role == Egress then p.Config? && p.clients == [] && PeersSpec(net, Ingress, sid, p.peers)
      else p == UnknownRole
  }

  lemma PeerStep(nodes: seq<Node>, k: nat, role: Role, sid: string -> nat)
    requires k < |nodes|
    ensures forall p :: PeerIn(nodes[..k + 1], role, sid, p) <==> PeerIn(nodes[..k], role, sid, p) || IsPeer(nodes[k], role, sid, p)
  {
    var front, all := nodes[..k], nodes[..k + 1];
    assert all == front + [nodes[k]];
    forall p ensures PeerIn(all, role, sid, p) <==> PeerIn(front, role, sid, p) || IsPeer(nodes[k], role, sid, p) {
      if IsPeer(nodes[k], role, sid, p) { assert nodes[k] in all; }
      if n :| n in front && IsPeer(n, role, sid, p) { assert n in all; }
    }
  }

  method PeersFor(net: Network, role: Role, sid: string -> nat) returns (out: seq<CfgPeer>)
    ensures PeersSpec(net, role, sid, out)
  {
    out := [];
    for k := 0 to |net.nodes|
      invariant forall p :: p in out <==> PeerIn(net.nodes[..k], role, sid, p)
    {
      var n := net.nodes[k];
      PeerStep(net.nodes, k, role, sid);
      ghost var before := out;
      if n.role == role && n.enable {
        out := out + [CfgPeer(role, if n.uuid != "" then sid(n.uuid) else 0)];
      }
      forall p ensures p in out <==> PeerIn(net.nodes[..k + 1], role, sid, p) {
        assert p in before <==> PeerIn(net.nodes[..k], role, sid, p);
        assert p in out <==> p in before || IsPeer(n, role, sid, p);
      }
    }
    assert net.nodes[..|net.nodes|] == net.nodes;
  }

  method Project(net: Network, id: int, sid: string -> nat) returns (p: Projection)
    ensures ProjectSpec(net, id, sid, p)
  {
    var n := NodeOf(net.nodes, id);
    if n == None { return NoSuchNode; }
    if !n.value.enable { return NodeOff; }
    match n.value.role
    case Ingress =>
      var clients := ClientsReaching(net, id);
      var peers := PeersFor(net, Egress, sid);
      return Config(clients, peers);
    case Egress =>
      var peers := PeersFor(net, Ingress, sid);
      return Config([], peers);
    case Other => return UnknownRole;
  }

  // ----------------------------------------------------------------- gate

  type Allowed = map<nat, bool>

  /** An ingress peer holds the session; a client does, with this exit permission. */
  ghost predicate PeerHolds(p: Projection, k: nat) {
    p.Config? && k != 0 && CfgPeer(Ingress, k) in p.peers
  }

  ghost predicate ClientHolds(p: Projection, now: int, sid: string -> nat, k: nat, exits: bool) {
    p.Config? && HoldsIn(p.clients, now, sid, k, exits)
  }

  ghost predicate HoldsIn(clients: seq<CfgClient>, now: int, sid: string -> nat, k: nat, exits: bool) {
    exists c :: c in clients && Holds(c, now, sid, k, exits)
  }

  predicate Holds(c: CfgClient, now: int, sid: string -> nat, k: nat, exits: bool) {
    !Expired(c.expiryAt, now) && sid(c.uuid) == k && c.allowExit == exits
  }

  /** The sessions a node should carry: its unexpired clients and its ingress peers. */
  ghost predicate WantSpec(p: Projection, now: int, sid: string -> nat, want: Allowed) {
    && (forall k :: k in want <==> PeerHolds(p, k) || ClientHolds(p, now, sid, k, true) || ClientHolds(p, now, sid, k, false))
    && (forall k :: k in want && PeerHolds(p, k) ==> !want[k])
    && (forall k :: k in want && !PeerHolds(p, k) ==> ClientHolds(p, now, sid, k, want[k]))
  }

  method Wanted(p: Projection, now: int, sid: string -> nat) returns (want: Allowed)
    requires p.Config?
    ensures WantSpec(p, now, sid, want)
  {
    want := map[];
    for i := 0 to |p.clients|
      invariant Carrying(p.clients[..i], now, sid, want)
    {
      var c := p.clients[i];
      ClientStep(p.clients, now, sid, i, want);
      if Expired(c.expiryAt, now) { continue; }
      want := want[sid(c.uuid) := c.allowExit];
    }
    assert p.clients[..|p.clients|] == p.clients;
    ghost var clients := want;
    for i := 0 to |p.peers|
      invariant forall k :: k in want <==> k in clients || (k != 0 && CfgPeer(Ingress, k) in p.peers[..i])
      invariant forall k :: k in want ==>
        want[k] == if k != 0 && CfgPeer(Ingress, k) in p.peers[..i] then false else clients[k]
    {
      var q := p.peers[i];
      assert p.peers[..i + 1] == p.peers[..i] + [q];
      if q.role == Ingress && q.session != 0 { want := want[q.session := false]; }
    }
    assert p.peers[..|p.peers|] == p.peers;
  }

  /** The sessions of the clients alone. */
  ghost predicate Carrying(clients: seq<CfgClient>, now: int, sid: string -> nat, want: Allowed) {
    && (forall k :: k in want <==> HoldsIn(clients, now, sid, k, true) || HoldsIn(clients, now, sid, k, false))
    && (forall k :: k in want ==> HoldsIn(clients, now, sid, k, want[k]))
  }

  lemma ClientStep(clients: seq<CfgClient>, now: int, sid: string -> nat, i: nat, want: Allowed)
    requires i < |clients| && Carrying(clients[..i], now, sid, want)
    ensures var c := clients[i];
      Carrying(clients[..i + 1], now, sid, if Expired(c.expiryAt, now) then want else want[sid(c.uuid) := c.allowExit])
  {
    var front, all, c := clients[..i], clients[..i + 1], clients[i];
    assert all == front + [c];
    forall k, b ensures HoldsIn(all, now, sid, k, b) <==> HoldsIn(front, now, sid, k, b) || Holds(c, now, sid, k, b) {
      if Holds(c, now, sid, k, b) { assert c in all; }
      if d :| d in front && Holds(d, now, sid, k, b) { assert d in all; }
    }
    var k := sid(c.uuid);
    assert !Expired(c.expiryAt, now) ==> HoldsIn(all, now, sid, k, c.allowExit);
  }

  class Gate {
    var allowed: Allowed

    constructor ()
      ensures allowed == map[]
    {
      allowed := map[];
    }

    method Add(id: nat)
      modifies this
      ensures allowed == if id in old(allowed) then old(allowed) else old(allowed)[id := false]
    {
      if id !in allowed { allowed := allowed[id := false]; }
    }

    method Del(id: nat)
      modifies this
      ensures allowed == old(allowed) - {id}
    {
      allowed := allowed - {id};
    }

    method Exit(id: nat, allow: bool)
      modifies this
      ensures allowed == if id in old(allowed) then old(allowed)[id := allow] else old(allowed)
    {
      if id in allowed { allowed := allowed[id := allow]; }
    }

    /** The two loops of `syncSessions`: the gate ends up holding exactly what is wanted. */
    method Drive(want: Allowed)
      modifies this
      ensures allowed == want
    {
      var live := allowed.Keys;
      var todo := want.Keys;
      while todo != {}
        invariant todo <= want.Keys
        invariant forall k :: k in allowed <==> k in live || (k in want && k !in todo)
        invariant forall k :: k in want && k !in todo ==> allowed[k] == want[k]
      {
        var id :| id in todo;
        todo := todo - {id};
        if id !in live { Add(id); }
        Exit(id, want[id]);
      }
      var gone := live;
      while gone != {}
        invariant gone <= live
        invariant forall k :: k in allowed <==> k in want || k in gone
        invariant forall k :: k in want ==> allowed[k] == want[k]
      {
        var id :| id in gone;
        gone := gone - {id};
        if id !in want { Del(id); }
      }
    }

    /** `syncSessions`: a node that is off carries nobody; one that is unknown is left be. */
    method SyncSessions(net: Network, id: int, now: int, sid: string -> nat)
      modifies this
      ensures exists p :: ProjectSpec(net, id, sid, p) && SyncSpec(p, now, sid, old(allowed), allowed)
    {
      var p := Project(net, id, sid);
      if p.Config? {
        var want := Wanted(p, now, sid);
        Drive(want);
      } else if p.NodeOff? {
        Drive(map[]);
      }
    }
  }

  ghost predicate SyncSpec(p: Projection, now: int, sid: string -> nat, before: Allowed, after: Allowed) {
    match p
    case Config(_, _) => WantSpec(p, now, sid, after)
    case NodeOff => after == map[]
    case _ => after == before
  }

  // --------------------------------------------------------------- whoami

  function FirstClient(clients: seq<Client>, token: string): Option<Client> {
    if clients == [] then None else if clients[0].uuid == token then Some(clients[0]) else FirstClient(clients[1..], token)
  }

  /** `carries`: the nested search over entrypoint ids and entrypoints. */
  method Carries(net: Network, id: int, g: Option<Group>) returns (r: bool)
    ensures r <==> g.Some? && Stands(net, id, g.value)
  {
    if g == None { return false; }
    for i := 0 to |g.value.entrypointIds|
      invariant forall e, k :: e in net.entrypoints && e.enable && e.nodeId == id && 0 <= k < i ==> e.id != g.value.entrypointIds[k]
    {
      for j := 0 to |net.entrypoints|
        invariant forall k :: 0 <= k < j ==>
          !(net.entrypoints[k].enable && net.entrypoints[k].nodeId == id && net.entrypoints[k].id == g.value.entrypointIds[i])
      {
        var e := net.entrypoints[j];
        if e.id == g.value.entrypointIds[i] && e.enable && e.nodeId == id { return true; }
      }
    }
    return false;
  }

  datatype Told = Told(carried: bool, allowExit: bool)

  /** What whoami tells the holder of a token, before version and device checks; `role` and
    `enable` are the node's own cached fields. */
  ghost function Whoami(net: Network, id: int, role: Role, enable: bool, now: int, token: string): Told {
    if token == "" then Told(false, false)
    else match FirstClient(net.clients, token)
      case None => Told(false, false)
      case Some(c) =>
        var g := GroupOf(net.groups, c.groupId);
        Told(c.enable && !Expired(c.expiryAt, now) && enable && role != Egress && g.Some? && Stands(net, id, g.value),
             MayExit(c, g))
  }

  // ------------------------------------------------------------ agreement

  lemma {:induction false} FirstClientIs(clients: seq<Client>, token: string)
    ensures match FirstClient(clients, token)
      case Some(c) => c in clients && c.uuid == token
      case None => forall c :: c in clients ==> c.uuid != token
  {
    if clients != [] {
      FirstClientIs(clients[1..], token);
      assert clients == [clients[0]] + clients[1..];
    }
  }

  /** The token shares its session id with no other client and with no node. */
  ghost predicate NoCollision(net: Network, sid: string -> nat, token: string) {
    && (forall c :: c in net.clients && c.uuid != token ==> sid(c.uuid) != sid(token))
    && (forall n :: n in net.nodes && n.uuid != "" ==> sid(n.uuid) != sid(token))
  }

  ghost predicate DistinctUuids(net: Network) {
    forall c, d :: c in net.clients && d in net.clients && c.uuid == d.uuid ==> c == d
  }

  lemma NoPeerHolds(net: Network, id: int, sid: string -> nat, p: Projection, token: string)
    requires ProjectSpec(net, id, sid, p) && NoCollision(net, sid, token) && sid(token) != 0
    ensures !PeerHolds(p, sid(token))
  {
  }

  /** The gate admits a token exactly when whoami calls its holder carried, and lets it take
    an exit exactly when whoami says so. */
  ghost predicate Agrees(gate: Allowed, k: nat, told: Told) {
    (k in gate <==> told.carried) && (k in gate ==> gate[k] == told.allowExit)
  }

  ghost predicate IsOwn(net: Network, id: int, role: Role, enable: bool) {
    var n := NodeOf(net.nodes, id);
    n.Some? && n.value.role == role && n.value.enable == enable
  }

  /** Right after a sync, at the same instant, they agree, unless the node is on and neither
    an ingress nor an egress. */
  lemma GateAgreesWithWhoami(net: Network, id: int, role: Role, enable: bool, now: int, sid: string -> nat,
                             p: Projection, before: Allowed, after: Allowed, token: string)
    requires IsOwn(net, id, role, enable) && !(enable && role == Other) && token != "" && sid(token) != 0
    requires DistinctUuids(net) && NoCollision(net, sid, token)
    requires ProjectSpec(net, id, sid, p) && SyncSpec(p, now, sid, before, after)
    ensures Agrees(after, sid(token), Whoami(net, id, role, enable, now, token))
  {
    var k := sid(token);
    FirstClientIs(net.clients, token);
    if p.Config? {
      NoPeerHolds(net, id, sid, p, token);
      var found := FirstClient(net.clients, token);
      forall b | ClientHolds(p, now, sid, k, b)
        ensures found.Some? && Reaches(net, id, found.value) && !Expired(found.value.expiryAt, now)
        ensures b == MayExit(found.value, GroupOf(net.groups, found.value.groupId)) && role == Ingress
      {
        var x :| x in p.clients && Holds(x, now, sid, k, b);
        var i :| 0 <= i < |net.clients| && Reaches(net, id, net.clients[i]) && x == CfgOf(net, net.clients[i]);
        assert net.clients[i] in net.clients;
      }
      if Whoami(net, id, role, enable, now, token).carried {
        var c := found.value;
        var i :| 0 <= i < |net.clients| && net.clients[i] == c;
        assert CfgOf(net, c) in p.clients;
        assert Holds(CfgOf(net, c), now, sid, k, CfgOf(net, c).allowExit);
      }
    }
  }

  /** Such a node leaves its gate as it was, so agreement is promised exactly for the others. */
  lemma GateAgreesIff(net: Network, id: int, role: Role, enable: bool, now: int, sid: string -> nat, p: Projection, token: string)
    requires IsOwn(net, id, role, enable) && token != "" && sid(token) != 0
    requires DistinctUuids(net) && NoCollision(net, sid, token) && ProjectSpec(net, id, sid, p)
    ensures !(enable && role == Other) <==>
      forall before, after :: SyncSpec(p, now, sid, before, after) ==>
        Agrees(after, sid(token), Whoami(net, id, role, enable, now, token))
  {
    var k, told := sid(token), Whoami(net, id, role, enable, now, token);
    if enable && role == Other {
      var gate: Allowed := if told.carried then map[] else map[k := true];
      assert SyncSpec(p, now, sid, gate, gate) && !Agrees(gate, k, told);
    } else {
      forall before, after | SyncSpec(p, now, sid, before, after) ensures Agrees(after, k, told) {
        GateAgreesWithWhoami(net, id, role, enable, now, sid, p, before, after, token);
      }
    }
  }

  // ----------------------------------------------------- told from the rows

  /** The node of the id: the first row that has it. */
  ghost predicate FirstNode(net: Network, id: int, n: Node) {
    exists k :: 0 <= k < |net.nodes| && net.nodes[k] == n && n.id == id && forall j :: 0 <= j < k ==> net.nodes[j].id != id
  }

  ghost predicate FirstGroup(net: Network, id: int, g: Group) {
    exists k :: 0 <= k < |net.groups| && net.groups[k] == g && g.id == id && forall j :: 0 <= j < k ==> net.groups[j].id != id
  }

  lemma {:induction false} NodeOfIs(nodes: seq<Node>, id: int, k: nat)
    requires k < |nodes| && nodes[k].id == id && forall j :: 0 <= j < k ==> nodes[j].id != id
    ensures NodeOf(nodes, id) == Some(nodes[k])
    decreases k
  {
    if k > 0 { NodeOfIs(nodes[1..], id, k - 1); }
  }

  lemma {:induction false} GroupOfIs(groups: seq<Group>, id: int)
    ensures match GroupOf(groups, id)
      case Some(g) => exists k :: 0 <= k < |groups| && groups[k] == g && g.id == id && forall j :: 0 <= j < k ==> groups[j].id != id
      case None => forall j :: 0 <= j < |groups| ==> groups[j].id != id
    decreases |groups|
  {
    if groups != [] && groups[0].id != id {
      var rest := groups[1..];
      GroupOfIs(rest, id);
      assert forall j :: 0 < j < |groups| ==> groups[j] == rest[j - 1];
      if GroupOf(rest, id).Some? {
        var k :| 0 <= k < |rest| && rest[k] == GroupOf(rest, id).value && rest[k].id == id
                 && forall j :: 0 <= j < k ==> rest[j].id != id;
        assert groups[k + 1] == rest[k];
      }
    }
  }

  lemma OneGroup(net: Network, id: int, g: Group)
    ensures FirstGroup(net, id, g) <==> GroupOf(net.groups, id) == Some(g)
  {
    GroupOfIs(net.groups, id);
  }

  /** An enabled client that has not run out, in a group with an enabled entrypoint here. */
  ghost predicate RowAdmits(net: Network, id: int, c: Client, now: int) {
    && c.enable && (c.expiryAt <= 0 || c.expiryAt >= now)
    && exists g, e :: FirstGroup(net, c.groupId, g) && e in net.entrypoints && e.enable && e.nodeId == id && e.id in g.entrypointIds
  }

  /** The client's own word comes first, then its group's. */
  ghost predicate RowExits(net: Network, c: Client) {
    c.allowExit == 1 || (c.allowExit != 2 && exists g :: FirstGroup(net, c.groupId, g) && g.allowExit)
  }

  lemma RowsSay(net: Network, id: int, c: Client, now: int)
    ensures RowAdmits(net, id, c, now) && c.uuid != "" <==> Reaches(net, id, c) && !Expired(c.expiryAt, now)
    ensures RowExits(net, c) <==> MayExit(c, GroupOf(net.groups, c.groupId))
  {
    var found := GroupOf(net.groups, c.groupId);
    forall g ensures FirstGroup(net, c.groupId, g) <==> found == Some(g) { OneGroup(net, c.groupId, g); }
    if found.Some? && Stands(net, id, found.value) {
      var e :| e in net.entrypoints && e.enable && e.nodeId == id && e.id in found.value.entrypointIds;
      assert FirstGroup(net, c.groupId, found.value);
    }
  }

  /** What a sync leaves in the gate of an ingress that is on: the session of a client is
    there exactly when its row admits it, with an exit exactly when the rows allow one. */
  lemma GateFromRows(net: Network, id: int, n: Node, c: Client, now: int, sid: string -> nat, p: Projection,
                     before: Allowed, after: Allowed)
    requires FirstNode(net, id, n) && n.enable && n.role == Ingress
    requires c in net.clients && c.uuid != "" && sid(c.uuid) != 0
    requires DistinctUuids(net) && NoCollision(net, sid, c.uuid)
    requires ProjectSpec(net, id, sid, p) && SyncSpec(p, now, sid, before, after)
    ensures sid(c.uuid) in after <==> RowAdmits(net, id, c, now)
    ensures sid(c.uuid) in after ==> (after[sid(c.uuid)] <==> RowExits(net, c))
  {
    var k: nat :| k < |net.nodes| && net.nodes[k] == n && forall j :: 0 <= j < k ==> net.nodes[j].id != id;
    NodeOfIs(net.nodes, id, k);
    FirstClientIs(net.clients, c.uuid);
    GateAgreesWithWhoami(net, id, Ingress, true, now, sid, p, before, after, c.uuid);
    RowsSay(net, id, c, now);
  }

  /** A token of no client opens nothing there. */
  lemma StrangersStayOut(net: Network, id: int, n: Node, token: string, now: int, sid: string -> nat, p: Projection,
                         before: Allowed, after: Allowed)
    requires FirstNode(net, id, n) && n.enable && n.role == Ingress
    requires token != "" && sid(token) != 0 && forall c :: c in net.clients ==> c.uuid != token
    requires DistinctUuids(net) && NoCollision(net, sid, token)
    requires ProjectSpec(net, id, sid, p) && SyncSpec(p, now, sid, before, after)
    ensures sid(token) !in after
  {
    var k: nat :| k < |net.nodes| && net.nodes[k] == n && forall j :: 0 <= j < k ==> net.nodes[j].id != id;
    NodeOfIs(net.nodes, id, k);
    FirstClientIs(net.clients, token);
    GateAgreesWithWhoami(net, id, Ingress, true, now, sid, p, before, after, token);
  }

  /** An egress that is on carries exactly the ingresses that are on, none with an exit, and
    a node that is off carries nobody. */
  lemma GateOfOthers(net: Network, id: int, n: Node, now: int, sid: string -> nat, p: Projection, before: Allowed,
                     after: Allowed, k: nat)
    requires FirstNode(net, id, n) && ProjectSpec(net, id, sid, p) && SyncSpec(p, now, sid, before, after)
    ensures !n.enable ==> after == map[]
    ensures n.enable && n.role == Egress ==>
      (k in after <==> k != 0 && exists m :: m in net.nodes && m.role == Ingress && m.enable && m.uuid != "" && sid(m.uuid) == k)
    ensures n.enable && n.role == Egress && k in after ==> !after[k]
  {
    var i: nat :| i < |net.nodes| && net.nodes[i] == n && forall j :: 0 <= j < i ==> net.nodes[j].id != id;
    NodeOfIs(net.nodes, id, i);
    if n.enable && n.role == Egress {
      assert forall b :: !ClientHolds(p, now, sid, k, b);
      assert k in after <==> k != 0 && PeerIn(net.nodes, Ingress, sid, CfgPeer(Ingress, k));
      if m :| m in net.nodes && m.role == Ingress && m.enable && m.uuid != "" && sid(m.uuid) == k {
        assert IsPeer(m, Ingress, sid, CfgPeer(Ingress, k));
      }
    }
  }
}
