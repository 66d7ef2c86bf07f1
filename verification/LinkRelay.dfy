/** Relaying one link across an acyclic mesh whose path entries lead to the owner
    of a destination: the request, its proof, the traffic and the close. */
module LinkRelay {
  import opened MeshNode

  /** A tree rooted at the owner of `dest`; `path` leads from the initiator of
      link `link` to the owner. */
  datatype Mesh = Mesh(parent: seq<nat>, depth: seq<nat>, path: seq<nat>, dest: Hash, link: Hash) {
    function Size(): nat { |parent| }

    function Last(): int { |path| - 1 }

    predicate TreeOk() {
      && |depth| == |parent| && |path| >= 2
      && (forall k :: 0 <= k < |path| ==> path[k] < Size() && depth[path[k]] == Last() - k)
      && (forall k :: 0 <= k < Last() ==> parent[path[k]] == path[k + 1])
      && (forall i :: 0 <= i < Size() && i != path[Last()] ==> parent[i] < Size() && depth[i] == depth[parent[i]] + 1)
    }

    function Initiator(): nat
      requires TreeOk()
    {
      path[0]
    }

    function Owner(): nat
      requires TreeOk()
    {
      path[Last()]
    }

    /** `j` is the parent or a child of `i`. */
    predicate Adjacent(i: nat, j: nat)
      requires TreeOk() && i < Size()
    {
      j < Size() && ((i != Owner() && j == parent[i]) || (j != Owner() && parent[j] == i))
    }

    /** A copy on an edge of the path, on its way to the owner. */
    predicate Upward(c: Copy)
      requires TreeOk()
    {
      c.src in path && c.src != Owner() && c.dst == parent[c.src]
    }

    /** A copy on an edge of the path, on its way to the initiator. */
    predicate Downward(c: Copy)
      requires TreeOk()
    {
      c.dst in path && c.dst != Owner() && c.src == parent[c.dst]
    }

    predicate IsRequest(f: Frame) { f.LinkRequest? && f.linkId == link }
    predicate IsTraffic(f: Frame) { f.LinkTraffic? && f.dest == link }
    predicate IsClose(f: Frame) { IsTraffic(f) && f.isClose }
    predicate About(f: Frame) { IsRequest(f) || IsTraffic(f) }
  }

  datatype Copy = Copy(src: nat, dst: nat, frame: Frame)

  /** Every copy in flight is delivered at most once. `sentUp` and `sentDown` count
      the packets the initiator and the owner have put on the link; `closed` says
      whether one of them was a close. */
  datatype Net = Net(nodes: seq<Node>, flying: seq<Copy>, sentUp: nat, sentDown: nat, closed: bool)

  datatype Event =
    | Put(isClose: bool, byOwner: bool)
    | Other(node: nat, frame: Frame)
    | Deliver(index: nat)

  function CopiesTo(src: nat, sends: seq<Send>): seq<Copy> {
    seq(|sends|, k requires 0 <= k < |sends| => Copy(src, sends[k].dst, sends[k].frame))
  }

  datatype Kind = Request | Traffic | Close

  predicate Is(m: Mesh, kind: Kind, f: Frame) {
    match kind
    case Request => m.IsRequest(f)
    case Traffic => m.IsTraffic(f)
    case Close => m.IsClose(f)
  }

  function Count(m: Mesh, kind: Kind, fs: seq<Frame>): nat {
    if fs == [] then 0 else Count(m, kind, fs[..|fs| - 1]) + (if Is(m, kind, fs[|fs| - 1]) then 1 else 0)
  }

  /** Requests on their way up, traffic on its way up and down. */
  datatype Way = RequestUp | TrafficUp | TrafficDown

  predicate Goes(m: Mesh, way: Way, c: Copy)
    requires m.TreeOk()
  {
    match way
    case RequestUp => m.IsRequest(c.frame) && m.Upward(c)
    case TrafficUp => m.IsTraffic(c.frame) && m.Upward(c)
    case TrafficDown => m.IsTraffic(c.frame) && m.Downward(c)
  }

  function InFlight(m: Mesh, way: Way, cs: seq<Copy>): nat
    requires m.TreeOk()
  {
    if cs == [] then 0 else InFlight(m, way, cs[..|cs| - 1]) + (if Goes(m, way, cs[|cs| - 1]) then 1 else 0)
  }

  // ----- steps -----

  /** The owner may use the link once it has accepted it, the initiator once it
      has its proof. */
  predicate MaySend(m: Mesh, net: Net, byOwner: bool)
    requires m.TreeOk() && |net.nodes| == m.Size()
  {
    if byOwner then m.link in net.nodes[m.Owner()].links else Count(m, Traffic, net.nodes[m.Initiator()].consumed) > 0
  }

  function Step(m: Mesh, net: Net, ev: Event): Net
    requires m.TreeOk() && |net.nodes| == m.Size()
  {
    match ev
    case Put(isClose, byOwner) =>
      if !MaySend(m, net, byOwner) then net
      else
        var end := if byOwner then m.Owner() else m.Initiator();
        var sends := ToAll(net.nodes[end].neighbours, LinkTraffic(m.link, 0, isClose));
        net.(flying := net.flying + CopiesTo(end, sends), closed := net.closed || isClose,
             sentUp := net.sentUp + (if byOwner then 0 else 1), sentDown := net.sentDown + (if byOwner then 1 else 0))
    case Other(i, f) =>
      if i < |net.nodes| && !m.About(f)
      then net.(flying := net.flying + CopiesTo(i, ToAll(net.nodes[i].neighbours, f)))
      else net
    case Deliver(k) =>
      if k < |net.flying| && net.flying[k].dst < |net.nodes| then
        var c := net.flying[k];
        var out := Receive(net.nodes[c.dst], c.src, c.frame);
        net.(nodes := net.nodes[c.dst := out.node],
             flying := net.flying[..k] + net.flying[k + 1..] + CopiesTo(c.dst, out.sends),
             sentDown := net.sentDown + (if m.IsRequest(c.frame) && c.frame.dest in net.nodes[c.dst].owned then 1 else 0))
      else net
  }

  /** Path entries stay in place: no announce of the destination is delivered. */
  predicate Steady(m: Mesh, net: Net, ev: Event) {
    ev.Deliver? && ev.index < |net.flying| ==>
      !(net.flying[ev.index].frame.Announce? && net.flying[ev.index].frame.dest == m.dest)
  }

  // ----- the invariant -----

  ghost predicate Wired(m: Mesh, net: Net)
    requires m.TreeOk()
  {
    && |net.nodes| == m.Size()
    && forall i :: 0 <= i < |net.nodes| ==> NodeWired(m, net.nodes[i], i)
  }

  /** Path responses are cached announces. */
  predicate CachesAnnounces(n: Node) { forall d | d in n.paths :: n.paths[d].packet.Announce? }

  ghost predicate NodeWired(m: Mesh, n: Node, i: nat)
    requires m.TreeOk() && i < m.Size()
  {
    && (forall j, k :: 0 <= j < k < |n.neighbours| ==> n.neighbours[j] != n.neighbours[k])
    && (forall j: nat :: j in n.neighbours <==> m.Adjacent(i, j))
    && (m.dest in n.owned <==> i == m.Owner()) && CachesAnnounces(n)
    && (i != m.Owner() ==> m.dest in n.paths && n.paths[m.dest].via == m.parent[i])
  }

  /** What node `i` may hold about the link. */
  ghost predicate NodeOk(m: Mesh, n: Node, i: nat)
    requires m.TreeOk() && i < m.Size()
  {
    && (i == m.Initiator() ==> m.link in n.links)
    && (m.link in n.links ==> i == m.Initiator() || i == m.Owner())
    && (m.link in n.relays ==> RelayOk(m, i, n.relays[m.link]))
    && (i != m.Owner() ==> Count(m, Request, n.consumed) == 0)
  }

  /** Relays sit strictly between the ends and point along the path. */
  ghost predicate RelayOk(m: Mesh, i: nat, r: Relay)
    requires m.TreeOk() && i < m.Size()
  {
    exists k :: 0 < k < m.Last() && m.path[k] == i && r == Relay(m.path[k - 1], m.path[k + 1])
  }

  /** The relay at position `k` of the path is set. */
  predicate IsSet(m: Mesh, net: Net, k: nat)
    requires m.TreeOk() && |net.nodes| == m.Size() && 0 < k < m.Last()
  {
    m.link in net.nodes[m.path[k]].relays
  }

  ghost predicate CopyOk(m: Mesh, net: Net, c: Copy)
    requires m.TreeOk() && |net.nodes| == m.Size()
  {
    && (m.IsRequest(c.frame) ==> c.frame.dest == m.dest && (StrayRequest(m, c) || (m.Upward(c) && RequestOk(m, net, c))))
    && (m.IsTraffic(c.frame) ==> c.dst !in m.path || m.Upward(c) || m.Downward(c))
    && (m.IsTraffic(c.frame) ==> Count(m, Request, net.nodes[m.Owner()].consumed) == 1)
    && (m.IsClose(c.frame) ==> CloseOk(m, net, c))
  }

  /** A copy the initiator put on an edge away from the owner. */
  predicate StrayRequest(m: Mesh, c: Copy)
    requires m.TreeOk()
  {
    c.dst !in m.path && c.dst < m.Size() && c.src == m.parent[c.dst]
  }

  /** A request has left relays behind it. */
  ghost predicate RequestOk(m: Mesh, net: Net, c: Copy)
    requires m.TreeOk() && |net.nodes| == m.Size() && m.Upward(c)
  {
    !net.closed && forall j :: 0 < j < m.Last() && m.depth[c.src] <= m.depth[m.path[j]] ==> IsSet(m, net, j)
  }

  /** A close has erased the relays behind it. */
  ghost predicate CloseOk(m: Mesh, net: Net, c: Copy)
    requires m.TreeOk() && |net.nodes| == m.Size()
  {
    && net.closed
    && (m.Upward(c) ==> forall j :: 0 < j < m.Last() && m.depth[c.src] <= m.depth[m.path[j]] ==> !IsSet(m, net, j))
    && (m.Downward(c) ==> forall j :: 0 < j < m.Last() && m.depth[m.path[j]] <= m.depth[c.src] ==> !IsSet(m, net, j))
  }

  ghost predicate Inv(m: Mesh, net: Net)
    requires m.TreeOk()
  {
    && Wired(m, net)
    && (forall i :: 0 <= i < |net.nodes| ==> NodeOk(m, net.nodes[i], i))
    && (forall c | c in net.flying :: CopyOk(m, net, c))
    && EndsOk(m, net)
    && (!net.closed ==> Conserved(m, net))
  }

  ghost predicate EndsOk(m: Mesh, net: Net)
    requires m.TreeOk() && |net.nodes| == m.Size()
  {
    var a, o := net.nodes[m.Initiator()], net.nodes[m.Owner()];
    && InFlight(m, RequestUp, net.flying) + Count(m, Request, o.consumed) == 1
    && (Count(m, Request, o.consumed) == 1 <==> m.link in o.links)
    && (Count(m, Traffic, a.consumed) > 0 || net.closed ==> Count(m, Request, o.consumed) == 1)
    && (Count(m, Request, o.consumed) == 1 && !net.closed ==> forall j :: 0 < j < m.Last() ==> IsSet(m, net, j))
    && (Count(m, Close, a.consumed) + Count(m, Close, o.consumed) > 0 ==> net.closed && NoneSet(m, net))
  }

  ghost predicate NoneSet(m: Mesh, net: Net)
    requires m.TreeOk() && |net.nodes| == m.Size()
  {
    forall j :: 0 < j < m.Last() ==> !IsSet(m, net, j)
  }

  /** Nothing is lost or repeated: packets sent are consumed or on their way. */
  predicate Conserved(m: Mesh, net: Net)
    requires m.TreeOk() && |net.nodes| == m.Size()
  {
    && net.sentUp == Count(m, Traffic, net.nodes[m.Owner()].consumed) + InFlight(m, TrafficUp, net.flying)
    && net.sentDown == Count(m, Traffic, net.nodes[m.Initiator()].consumed) + InFlight(m, TrafficDown, net.flying)
  }

  /** The initiator has registered the link and put the request on every edge;
      nobody else knows of it. */
  ghost predicate Start(m: Mesh, net: Net)
    requires m.TreeOk()
  {
    && Wired(m, net)
    && (forall i :: 0 <= i < |net.nodes| ==>
        && m.link !in net.nodes[i].relays && net.nodes[i].consumed == []
        && (m.link in net.nodes[i].links <==> i == m.Initiator()))
    && net.flying == CopiesTo(m.Initiator(), ToAll(net.nodes[m.Initiator()].neighbours, LinkRequest(m.dest, 0, m.link)))
    && net.sentUp == 0 && net.sentDown == 0 && !net.closed
  }
}
