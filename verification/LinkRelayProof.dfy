/** Every step keeps the relaying invariant; what follows for whole runs. */
module LinkRelayProof {
  import opened MeshNode
  import opened LinkRelay

  // ----- counting -----

  lemma CountAppend(m: Mesh, kind: Kind, fs: seq<Frame>, f: Frame)
    ensures Count(m, kind, fs + [f]) == Count(m, kind, fs) + (if Is(m, kind, f) then 1 else 0)
  {
    assert (fs + [f])[..|fs|] == fs;
  }

  lemma {:induction false} InFlightConcat(m: Mesh, way: Way, cs: seq<Copy>, ds: seq<Copy>)
    requires m.TreeOk()
    ensures InFlight(m, way, cs + ds) == InFlight(m, way, cs) + InFlight(m, way, ds)
  {
    if ds == [] {
      assert cs + ds == cs;
    } else {
      InFlightConcat(m, way, cs, ds[..|ds| - 1]);
      assert (cs + ds)[..|cs + ds| - 1] == cs + ds[..|ds| - 1];
    }
  }

  lemma InFlightOne(m: Mesh, way: Way, c: Copy)
    requires m.TreeOk()
    ensures InFlight(m, way, [c]) == if Goes(m, way, c) then 1 else 0
  {
    assert [c][..0] == [];
  }

  lemma InFlightRemove(m: Mesh, way: Way, cs: seq<Copy>, k: nat)
    requires m.TreeOk() && k < |cs|
    ensures InFlight(m, way, cs) == InFlight(m, way, cs[..k] + cs[k + 1..]) + (if Goes(m, way, cs[k]) then 1 else 0)
  {
    assert cs == cs[..k] + ([cs[k]] + cs[k + 1..]);
    InFlightConcat(m, way, cs[..k], [cs[k]] + cs[k + 1..]);
    InFlightConcat(m, way, [cs[k]], cs[k + 1..]);
    InFlightConcat(m, way, cs[..k], cs[k + 1..]);
    InFlightOne(m, way, cs[k]);
  }

  lemma {:induction false} NoneGo(m: Mesh, way: Way, cs: seq<Copy>)
    requires m.TreeOk()
    ensures InFlight(m, way, cs) == 0 <==> forall c | c in cs :: !Goes(m, way, c)
  {
    if cs != [] {
      NoneGo(m, way, cs[..|cs| - 1]);
      assert cs == cs[..|cs| - 1] + [cs[|cs| - 1]];
    }
  }

  /** A broadcast puts exactly one copy on the edge to `target`. */
  lemma {:induction false} BroadcastGoes(m: Mesh, way: Way, src: nat, ns: seq<nat>, f: Frame, target: nat)
    requires m.TreeOk() && forall j, k :: 0 <= j < k < |ns| ==> ns[j] != ns[k]
    requires forall x | x in ns :: Goes(m, way, Copy(src, x, f)) <==> x == target
    ensures InFlight(m, way, CopiesTo(src, ToAll(ns, f))) == if target in ns then 1 else 0
    decreases |ns|
  {
    if ns == [] {
      assert CopiesTo(src, ToAll(ns, f)) == [];
    } else {
      var init, last := ns[..|ns| - 1], ns[|ns| - 1];
      assert ns == init + [last];
      BroadcastGoes(m, way, src, init, f, target);
      var all := CopiesTo(src, ToAll(ns, f));
      assert all[..|all| - 1] == CopiesTo(src, ToAll(init, f));
      assert all[|all| - 1] == Copy(src, last, f);
    }
  }

  lemma BroadcastCopies(src: nat, ns: seq<nat>, f: Frame, c: Copy)
    ensures c in CopiesTo(src, ToAll(ns, f)) <==> c.src == src && c.frame == f && c.dst in ns
  {
    var all := CopiesTo(src, ToAll(ns, f));
    if c.src == src && c.frame == f && c.dst in ns {
      var k :| 0 <= k < |ns| && ns[k] == c.dst;
      assert all[k] == c;
    }
  }

  // ----- the path -----

  /** A node on the path stands at the position its depth says. */
  lemma Position(m: Mesh, x: nat)
    requires m.TreeOk() && x in m.path
    ensures x < m.Size() && 0 <= m.Last() - m.depth[x] < |m.path| && m.path[m.Last() - m.depth[x]] == x
  {
  }

  /** The end points of an upward copy. */
  lemma UpwardEnds(m: Mesh, c: Copy) returns (k: nat)
    requires m.TreeOk() && m.Upward(c)
    ensures k < m.Last() && c.src == m.path[k] && c.dst == m.path[k + 1] && c.dst in m.path
    ensures !m.Downward(c)
  {
    k :| 0 <= k < |m.path| && m.path[k] == c.src;
  }

  lemma DownwardEnds(m: Mesh, c: Copy) returns (k: nat)
    requires m.TreeOk() && m.Downward(c)
    ensures k < m.Last() && c.dst == m.path[k] && c.src == m.path[k + 1] && c.src in m.path
    ensures !m.Upward(c)
  {
    k :| 0 <= k < |m.path| && m.path[k] == c.dst;
  }

  // ----- steps that leave the link alone -----

  /** Nothing the invariant says about the link differs. */
  ghost predicate Alike(m: Mesh, n: Node, n': Node) {
    && n'.neighbours == n.neighbours && CachesAnnounces(n') && (m.dest in n'.owned <==> m.dest in n.owned)
    && (m.dest in n.paths ==> m.dest in n'.paths && n'.paths[m.dest] == n.paths[m.dest])
    && (m.link in n'.links <==> m.link in n.links) && (m.link in n'.relays <==> m.link in n.relays)
    && (m.link in n.relays ==> n'.relays[m.link] == n.relays[m.link])
    && Count(m, Request, n'.consumed) == Count(m, Request, n.consumed)
    && Count(m, Traffic, n'.consumed) == Count(m, Traffic, n.consumed)
    && Count(m, Close, n'.consumed) == Count(m, Close, n.consumed)
  }

  lemma ConsumedOther(m: Mesh, fs: seq<Frame>, f: Frame)
    requires !m.About(f)
    ensures Count(m, Request, fs + [f]) == Count(m, Request, fs) && Count(m, Traffic, fs + [f]) == Count(m, Traffic, fs)
    ensures Count(m, Close, fs + [f]) == Count(m, Close, fs)
  {
    CountAppend(m, Request, fs, f);
    CountAppend(m, Traffic, fs, f);
    CountAppend(m, Close, fs, f);
  }

  lemma OtherSingle(m: Mesh, n: Node, from: nat, f: Frame)
    requires f.Single? && CachesAnnounces(n)
    ensures Alike(m, n, Receive(n, from, f).node)
    ensures forall s | s in Receive(n, from, f).sends :: s.frame == Hopped(f)
  {
    ConsumedOther(m, n.consumed, Hopped(f));
  }

  lemma OtherTraffic(m: Mesh, n: Node, from: nat, f: Frame)
    requires f.LinkTraffic? && f.dest != m.link && CachesAnnounces(n)
    ensures Alike(m, n, Receive(n, from, f).node)
    ensures forall s | s in Receive(n, from, f).sends :: s.frame == Hopped(f)
  {
    ConsumedOther(m, n.consumed, Hopped(f));
  }

  lemma OtherRequest(m: Mesh, n: Node, from: nat, f: Frame)
    requires !m.About(f) && f.LinkRequest? && CachesAnnounces(n)
    ensures Alike(m, n, Receive(n, from, f).node)
    ensures forall s | s in Receive(n, from, f).sends :: !m.About(s.frame)
  {
    ConsumedOther(m, n.consumed, Hopped(f));
  }

  /** A frame about something else leaves a node as it was, as far as the link is
      concerned, and makes it send nothing about the link. */
  lemma OtherFrame(m: Mesh, n: Node, from: nat, f: Frame)
    requires !m.About(f) && !(f.Announce? && f.dest == m.dest)
    requires CachesAnnounces(n)
    ensures Alike(m, n, Receive(n, from, f).node)
    ensures forall s | s in Receive(n, from, f).sends :: !m.About(s.frame)
  {
    if f.LinkRequest? { OtherRequest(m, n, from, f); }
    if f.Single? { OtherSingle(m, n, from, f); }
    if f.LinkTraffic? { OtherTraffic(m, n, from, f); }
  }

  /** The copies in flight and the counters after copy `k` is taken out and
      `added` put in. */
  ghost predicate Replaced(net: Net, net': Net, k: nat, added: seq<Copy>) {
    k < |net.flying| && net'.flying == net.flying[..k] + net.flying[k + 1..] + added
  }

  lemma ReplacedCount(m: Mesh, net: Net, net': Net, k: nat, added: seq<Copy>, way: Way)
    requires m.TreeOk() && Replaced(net, net', k, added)
    ensures InFlight(m, way, net'.flying) + (if Goes(m, way, net.flying[k]) then 1 else 0)
      == InFlight(m, way, net.flying) + InFlight(m, way, added)
  {
    InFlightRemove(m, way, net.flying, k);
    InFlightConcat(m, way, net.flying[..k] + net.flying[k + 1..], added);
  }

  lemma ReplacedCopies(net: Net, net': Net, k: nat, added: seq<Copy>)
    requires Replaced(net, net', k, added)
    ensures forall c | c in net'.flying :: c in net.flying || c in added
  {
  }

  lemma AlikeNodes(m: Mesh, net: Net, net': Net, i: nat, n': Node)
    requires m.TreeOk() && Inv(m, net) && i < |net.nodes| && Alike(m, net.nodes[i], n')
    requires net'.nodes == net.nodes[i := n']
    ensures Wired(m, net') && forall j :: 0 <= j < |net.nodes| ==> NodeOk(m, net'.nodes[j], j)
    ensures forall j :: 0 <= j < |net.nodes| ==> Alike(m, net.nodes[j], net'.nodes[j])
  {
    forall j | 0 <= j < |net.nodes|
      ensures Alike(m, net.nodes[j], net'.nodes[j]) && NodeWired(m, net'.nodes[j], j) && NodeOk(m, net'.nodes[j], j)
    {
      assert NodeWired(m, net.nodes[j], j) && NodeOk(m, net.nodes[j], j);
    }
  }

  lemma AlikeCopy(m: Mesh, net: Net, net': Net, c: Copy)
    requires m.TreeOk() && |net.nodes| == |net'.nodes| == m.Size() && CopyOk(m, net, c)
    requires forall j :: 0 <= j < |net.nodes| ==> Alike(m, net.nodes[j], net'.nodes[j])
    requires net'.closed == net.closed
    ensures CopyOk(m, net', c)
  {
    assert forall k :: 0 < k < m.Last() ==> (IsSet(m, net', k) <==> IsSet(m, net, k));
  }

  lemma AlikeEnds(m: Mesh, net: Net, net': Net)
    requires m.TreeOk() && |net.nodes| == |net'.nodes| == m.Size() && EndsOk(m, net)
    requires forall j :: 0 <= j < |net.nodes| ==> Alike(m, net.nodes[j], net'.nodes[j])
    requires net'.closed == net.closed && InFlight(m, RequestUp, net'.flying) == InFlight(m, RequestUp, net.flying)
    ensures EndsOk(m, net')
  {
    assert forall k :: 0 < k < m.Last() ==> (IsSet(m, net', k) <==> IsSet(m, net, k));
  }

  /** A copy is taken that is no request on its way up, and no traffic on its way
      unless the link is closed; nothing about the link changes or is sent. */
  lemma AlikeStep(m: Mesh, net: Net, net': Net, k: nat, added: seq<Copy>, i: nat, n': Node)
    requires m.TreeOk() && Inv(m, net) && Replaced(net, net', k, added)
    requires i < |net.nodes| && Alike(m, net.nodes[i], n') && net'.nodes == net.nodes[i := n']
    requires forall c | c in added :: !m.About(c.frame)
    requires !Goes(m, RequestUp, net.flying[k])
    requires net.closed || (!Goes(m, TrafficUp, net.flying[k]) && !Goes(m, TrafficDown, net.flying[k]))
    requires net'.closed == net.closed && net'.sentUp == net.sentUp && net'.sentDown == net.sentDown
    ensures Inv(m, net')
  {
    AlikeNodes(m, net, net', i, n');
    forall way ensures InFlight(m, way, added) == 0 { NoneGo(m, way, added); }
    ReplacedCount(m, net, net', k, added, RequestUp);
    ReplacedCount(m, net, net', k, added, TrafficUp);
    ReplacedCount(m, net, net', k, added, TrafficDown);
    ReplacedCopies(net, net', k, added);
    forall c | c in net'.flying ensures CopyOk(m, net', c) {
      if c in net.flying { AlikeCopy(m, net, net', c); }
    }
    AlikeEnds(m, net, net');
  }

  /** A local sender adds packets about something else. */
  lemma OtherStep(m: Mesh, net: Net, i: nat, f: Frame)
    requires m.TreeOk() && Inv(m, net)
    ensures Inv(m, Step(m, net, Other(i, f)))
  {
    var net' := Step(m, net, Other(i, f));
    if i < |net.nodes| && !m.About(f) {
      var added := CopiesTo(i, ToAll(net.nodes[i].neighbours, f));
      assert forall c | c in added :: c.frame == f;
      forall way ensures InFlight(m, way, net'.flying) == InFlight(m, way, net.flying) {
        NoneGo(m, way, added);
        InFlightConcat(m, way, net.flying, added);
      }
      forall c | c in net'.flying ensures CopyOk(m, net', c) {
        if c in net.flying { AlikeCopy(m, net, net', c); }
      }
      AlikeEnds(m, net, net');
    }
  }

  // ----- broadcasts by the two ends -----

  /** What the initiator broadcasts: one copy starts up the path. */
  lemma InitiatorBroadcast(m: Mesh, net: Net, f: Frame)
    requires m.TreeOk() && Wired(m, net) && m.About(f)
    ensures var a := m.Initiator();
      var added := CopiesTo(a, ToAll(net.nodes[a].neighbours, f));
      && InFlight(m, if m.IsRequest(f) then RequestUp else TrafficUp, added) == 1
      && InFlight(m, if m.IsRequest(f) then TrafficUp else RequestUp, added) == 0
      && InFlight(m, TrafficDown, added) == 0
      && forall c | c in added :: c.src == a && c.frame == f && (m.Upward(c) || StrayRequest(m, c)) && !m.Downward(c)
  {
    var a := m.Initiator();
    assert NodeWired(m, net.nodes[a], a) && m.parent[a] == m.path[1];
    var ns := net.nodes[a].neighbours;
    var added := CopiesTo(a, ToAll(ns, f));
    forall c | c in added
      ensures c.src == a && c.frame == f && (m.Upward(c) || StrayRequest(m, c)) && !m.Downward(c)
    {
      BroadcastCopies(a, ns, f, c);
      assert m.Adjacent(a, c.dst);
      if c.dst != m.parent[a] { assert m.depth[c.dst] == m.Last() + 1; }
    }
    NoneGo(m, TrafficDown, added);
    NoneGo(m, if m.IsRequest(f) then TrafficUp else RequestUp, added);
    BroadcastGoes(m, if m.IsRequest(f) then RequestUp else TrafficUp, a, ns, f, m.parent[a]);
  }

  /** What the owner broadcasts: one copy starts down the path. */
  lemma OwnerBroadcast(m: Mesh, net: Net, f: Frame)
    requires m.TreeOk() && Wired(m, net) && m.IsTraffic(f)
    ensures var o := m.Owner();
      var added := CopiesTo(o, ToAll(net.nodes[o].neighbours, f));
      && InFlight(m, TrafficDown, added) == 1
      && InFlight(m, TrafficUp, added) == 0 && InFlight(m, RequestUp, added) == 0
      && forall c | c in added :: c.src == o && c.frame == f && (m.Downward(c) || c.dst !in m.path) && !m.Upward(c)
  {
    var o := m.Owner();
    assert NodeWired(m, net.nodes[o], o);
    var ns := net.nodes[o].neighbours;
    var added := CopiesTo(o, ToAll(ns, f));
    forall c | c in added
      ensures c.src == o && c.frame == f && (m.Downward(c) || c.dst !in m.path) && !m.Upward(c)
    {
      BroadcastCopies(o, ns, f, c);
      assert m.Adjacent(o, c.dst);
    }
    NoneGo(m, TrafficUp, added);
    NoneGo(m, RequestUp, added);
    var first := m.path[m.Last() - 1];
    assert m.parent[first] == o && m.Adjacent(o, first);
    forall x | x in ns ensures Goes(m, TrafficDown, Copy(o, x, f)) <==> x == first {
      assert m.Adjacent(o, x);
      if x in m.path && x != o { Position(m, x); }
    }
    BroadcastGoes(m, TrafficDown, o, ns, f, first);
  }

  // ----- using the link -----

  /** Once the owner has accepted, no request is on its way. */
  lemma NoRequestLeft(m: Mesh, net: Net, c: Copy)
    requires m.TreeOk() && |net.nodes| == m.Size() && EndsOk(m, net)
    requires Count(m, Request, net.nodes[m.Owner()].consumed) == 1 && c in net.flying
    ensures !Goes(m, RequestUp, c)
  {
    NoneGo(m, RequestUp, net.flying);
  }

  lemma SendCopies(m: Mesh, net: Net, isClose: bool, byOwner: bool)
    requires m.TreeOk() && Inv(m, net) && MaySend(m, net, byOwner)
    ensures forall c | c in Step(m, net, Put(isClose, byOwner)).flying :: CopyOk(m, Step(m, net, Put(isClose, byOwner)), c)
  {
    var net' := Step(m, net, Put(isClose, byOwner));
    var f := LinkTraffic(m.link, 0, isClose);
    if byOwner { OwnerBroadcast(m, net, f); } else { InitiatorBroadcast(m, net, f); }
    assert forall k :: 0 < k < m.Last() ==> (IsSet(m, net', k) <==> IsSet(m, net, k));
    forall c | c in net'.flying ensures CopyOk(m, net', c) {
      if c in net.flying { NoRequestLeft(m, net, c); }
    }
  }

  lemma SendStep(m: Mesh, net: Net, isClose: bool, byOwner: bool)
    requires m.TreeOk() && Inv(m, net)
    ensures Inv(m, Step(m, net, Put(isClose, byOwner)))
  {
    if MaySend(m, net, byOwner) {
      var net' := Step(m, net, Put(isClose, byOwner));
      var f := LinkTraffic(m.link, 0, isClose);
      var end := if byOwner then m.Owner() else m.Initiator();
      var added := CopiesTo(end, ToAll(net.nodes[end].neighbours, f));
      if byOwner { OwnerBroadcast(m, net, f); } else { InitiatorBroadcast(m, net, f); }
      InFlightConcat(m, RequestUp, net.flying, added);
      InFlightConcat(m, TrafficUp, net.flying, added);
      InFlightConcat(m, TrafficDown, net.flying, added);
      SendCopies(m, net, isClose, byOwner);
      assert forall k :: 0 < k < m.Last() ==> (IsSet(m, net', k) <==> IsSet(m, net, k));
    }
  }

  // ----- the request -----

  /** Neighbouring positions of the path. */
  lemma PathTriple(m: Mesh, q: nat)
    requires m.TreeOk() && 0 < q < m.Last()
    ensures m.path[q] != m.Owner() && m.path[q] != m.Initiator() && m.path[q - 1] != m.path[q + 1]
    ensures m.parent[m.path[q - 1]] == m.path[q] && m.parent[m.path[q]] == m.path[q + 1]
    ensures m.path[q - 1] != m.Owner()
  {
    assert m.depth[m.path[q - 1]] == m.depth[m.path[q]] + 1 == m.depth[m.path[q + 1]] + 2;
  }

  /** A request not for this node goes to its next hop and leaves a relay. */
  lemma RequestGoesOn(m: Mesh, n: Node, q: nat, f: Frame)
    requires m.TreeOk() && 0 < q < m.Last() && NodeWired(m, n, m.path[q]) && m.IsRequest(f) && f.dest == m.dest
    ensures Receive(n, m.path[q - 1], f) ==
            Outcome(n.(relays := n.relays[m.link := Relay(m.path[q - 1], m.path[q + 1])]), [Send(m.path[q + 1], Hopped(f))])
  {
    PathTriple(m, q);
  }

  /** The link's relay at one node of the path is replaced or erased. */
  ghost predicate Rerelayed(m: Mesh, q: nat, n: Node, n': Node)
    requires m.TreeOk() && 0 < q < m.Last()
  {
    && n' == n.(relays := n'.relays)
    && (m.link in n'.relays ==> n'.relays[m.link] == Relay(m.path[q - 1], m.path[q + 1]))
  }

  lemma RerelayedNodes(m: Mesh, net: Net, net': Net, q: nat, n': Node)
    requires m.TreeOk() && Wired(m, net) && forall j :: 0 <= j < |net.nodes| ==> NodeOk(m, net.nodes[j], j)
    requires 0 < q < m.Last() && Rerelayed(m, q, net.nodes[m.path[q]], n') && net'.nodes == net.nodes[m.path[q] := n']
    ensures Wired(m, net') && forall j :: 0 <= j < |net.nodes| ==> NodeOk(m, net'.nodes[j], j)
    ensures forall j :: 0 <= j < |net.nodes| ==> net'.nodes[j] == net.nodes[j].(relays := net'.nodes[j].relays)
  {
    forall j | 0 <= j < |net.nodes| ensures NodeWired(m, net'.nodes[j], j) && NodeOk(m, net'.nodes[j], j) {
      assert NodeWired(m, net.nodes[j], j) && NodeOk(m, net.nodes[j], j);
      if j == m.path[q] && m.link in n'.relays { assert RelayOk(m, j, n'.relays[m.link]); }
    }
  }

  /** What is set elsewhere on the path stays as it is. */
  lemma RerelayedSets(m: Mesh, net: Net, net': Net, q: nat, n': Node)
    requires m.TreeOk() && |net.nodes| == m.Size() && 0 < q < m.Last() && net'.nodes == net.nodes[m.path[q] := n']
    ensures IsSet(m, net', q) <==> m.link in n'.relays
    ensures forall j :: 0 < j < m.Last() && j != q ==> (IsSet(m, net', j) <==> IsSet(m, net, j))
  {
    assert forall j :: 0 < j < m.Last() && j != q ==> m.depth[m.path[j]] != m.depth[m.path[q]];
  }

  /** One copy is replaced by the next one on the same way. */
  lemma ForwardCounts(m: Mesh, net: Net, net': Net, i: nat, next: Copy)
    requires m.TreeOk() && Replaced(net, net', i, [next])
    requires forall way :: Goes(m, way, next) <==> Goes(m, way, net.flying[i])
    ensures forall way :: InFlight(m, way, net'.flying) == InFlight(m, way, net.flying)
  {
    forall way ensures InFlight(m, way, net'.flying) == InFlight(m, way, net.flying) {
      ReplacedCount(m, net, net', i, [next], way);
      InFlightOne(m, way, next);
    }
  }

  lemma RequestForwardCopies(m: Mesh, net: Net, net': Net, i: nat, q: nat, n': Node, next: Copy)
    requires m.TreeOk() && |net.nodes| == |net'.nodes| == m.Size() && Replaced(net, net', i, [next])
    requires forall c | c in net.flying :: CopyOk(m, net, c)
    requires 0 < q < m.Last() && m.Upward(net.flying[i]) && net.flying[i].src == m.path[q - 1]
    requires RequestOk(m, net, net.flying[i]) && net'.closed == net.closed
    requires m.IsRequest(next.frame) && next.frame.dest == m.dest && m.Upward(next) && next.src == m.path[q]
    requires Rerelayed(m, q, net.nodes[m.path[q]], n') && m.link in n'.relays && net'.nodes == net.nodes[m.path[q] := n']
    ensures forall c | c in net'.flying :: CopyOk(m, net', c)
  {
    ReplacedCopies(net, net', i, [next]);
    RerelayedSets(m, net, net', q, n');
    assert net'.nodes[m.Owner()].consumed == net.nodes[m.Owner()].consumed;
    assert RequestOk(m, net', next);
    forall c | c in net'.flying ensures CopyOk(m, net', c) {
      if c in net.flying { assert CopyOk(m, net, c); }
    }
  }

  /** What delivering copy `i` does, given what its receiver does. */
  lemma DeliverIs(m: Mesh, net: Net, i: nat, out: Outcome)
    requires m.TreeOk() && |net.nodes| == m.Size() && i < |net.flying| && net.flying[i].dst < |net.nodes|
    requires out == Receive(net.nodes[net.flying[i].dst], net.flying[i].src, net.flying[i].frame)
    ensures var c, net' := net.flying[i], Step(m, net, Deliver(i));
      && net'.nodes == net.nodes[c.dst := out.node] && Replaced(net, net', i, CopiesTo(c.dst, out.sends))
      && net'.closed == net.closed && net'.sentUp == net.sentUp
      && net'.sentDown == net.sentDown + (if m.IsRequest(c.frame) && c.frame.dest in net.nodes[c.dst].owned then 1 else 0)
  {
  }

  lemma OneCopy(src: nat, dst: nat, f: Frame)
    ensures CopiesTo(src, [Send(dst, f)]) == [Copy(src, dst, f)]
  {
  }

  lemma RequestFacts(m: Mesh, net: Net, c: Copy)
    requires m.TreeOk() && |net.nodes| == m.Size() && CopyOk(m, net, c) && Goes(m, RequestUp, c)
    ensures RequestOk(m, net, c) && c.frame.dest == m.dest && !net.closed
  {
    var k := UpwardEnds(m, c);
  }

  lemma RequestForwardStep(m: Mesh, net: Net, i: nat, q: nat)
    requires m.TreeOk() && Inv(m, net) && i < |net.flying| && Goes(m, RequestUp, net.flying[i])
    requires 0 < q < m.Last() && net.flying[i].src == m.path[q - 1] && net.flying[i].dst == m.path[q]
    ensures Inv(m, Step(m, net, Deliver(i)))
  {
    var c, n := net.flying[i], net.nodes[m.path[q]];
    PathTriple(m, q);
    assert CopyOk(m, net, c) && NodeWired(m, n, m.path[q]);
    RequestGoesOn(m, n, q, c.frame);
    var n' := n.(relays := n.relays[m.link := Relay(m.path[q - 1], m.path[q + 1])]);
    DeliverIs(m, net, i, Outcome(n', [Send(m.path[q + 1], Hopped(c.frame))]));
    OneCopy(m.path[q], m.path[q + 1], Hopped(c.frame));
    RequestForwarded(m, net, Step(m, net, Deliver(i)), i, q, n', Copy(m.path[q], m.path[q + 1], Hopped(c.frame)));
  }

  lemma SameWay(m: Mesh, c: Copy, next: Copy)
    requires m.TreeOk() && m.Upward(c) && m.Upward(next) && next.frame == Hopped(c.frame)
    ensures forall way :: Goes(m, way, next) <==> Goes(m, way, c)
  {
    var k := UpwardEnds(m, c);
    var k' := UpwardEnds(m, next);
  }

  lemma RequestForwardEnds(m: Mesh, net: Net, net': Net)
    requires m.TreeOk() && |net.nodes| == |net'.nodes| == m.Size() && EndsOk(m, net)
    requires InFlight(m, RequestUp, net'.flying) == InFlight(m, RequestUp, net.flying) > 0
    requires !net.closed && !net'.closed
    requires forall j :: 0 <= j < |net.nodes| ==> net'.nodes[j] == net.nodes[j].(relays := net'.nodes[j].relays)
    ensures EndsOk(m, net')
  {
  }

  lemma RequestForwarded(m: Mesh, net: Net, net': Net, i: nat, q: nat, n': Node, next: Copy)
    requires m.TreeOk() && Inv(m, net) && Replaced(net, net', i, [next]) && Goes(m, RequestUp, net.flying[i])
    requires 0 < q < m.Last() && net.flying[i].src == m.path[q - 1]
    requires Rerelayed(m, q, net.nodes[m.path[q]], n') && m.link in n'.relays
    requires net'.nodes == net.nodes[m.path[q] := n']
    requires net'.closed == net.closed && net'.sentUp == net.sentUp && net'.sentDown == net.sentDown
    requires next == Copy(m.path[q], m.path[q + 1], Hopped(net.flying[i].frame))
    ensures Inv(m, net')
  {
    var c := net.flying[i];
    PathTriple(m, q);
    RequestFacts(m, net, c);
    assert m.Upward(next);
    SameWay(m, c, next);
    ForwardCounts(m, net, net', i, next);
    RerelayedNodes(m, net, net', q, n');
    RequestForwardCopies(m, net, net', i, q, n', next);
    NoneGo(m, RequestUp, net.flying);
    RequestForwardEnds(m, net, net');
  }

  /** The owner takes the link up and broadcasts its proof. */
  lemma RequestAccepted(m: Mesh, n: Node, from: nat, f: Frame)
    requires f.dest in n.owned && m.IsRequest(f)
    ensures Receive(n, from, f) == Outcome(n.(links := n.links + {m.link}, consumed := n.consumed + [Hopped(f)]),
                                           ToAll(n.neighbours, LinkTraffic(m.link, 0, false)))
    ensures Count(m, Request, n.consumed + [Hopped(f)]) == Count(m, Request, n.consumed) + 1
    ensures Count(m, Traffic, n.consumed + [Hopped(f)]) == Count(m, Traffic, n.consumed)
    ensures Count(m, Close, n.consumed + [Hopped(f)]) == Count(m, Close, n.consumed)
  {
    CountAppend(m, Request, n.consumed, Hopped(f));
    CountAppend(m, Traffic, n.consumed, Hopped(f));
    CountAppend(m, Close, n.consumed, Hopped(f));
  }

  lemma AcceptCopies(m: Mesh, net: Net, net': Net, i: nat, added: seq<Copy>, proof: Frame)
    requires m.TreeOk() && |net.nodes| == |net'.nodes| == m.Size() && Replaced(net, net', i, added)
    requires forall c | c in net.flying :: CopyOk(m, net, c)
    requires net'.closed == net.closed
    requires forall j :: 0 < j < m.Last() ==> (IsSet(m, net', j) <==> IsSet(m, net, j))
    requires m.IsTraffic(proof) && !m.IsClose(proof)
    requires forall c | c in added :: c.frame == proof && (m.Downward(c) || c.dst !in m.path)
    requires Count(m, Request, net'.nodes[m.Owner()].consumed) == 1
    ensures forall c | c in net'.flying :: CopyOk(m, net', c)
  {
    ReplacedCopies(net, net', i, added);
    forall c | c in net'.flying ensures CopyOk(m, net', c) {
      if c in net.flying { assert CopyOk(m, net, c); }
    }
  }

  lemma AcceptStep(m: Mesh, net: Net, i: nat)
    requires m.TreeOk() && Inv(m, net) && i < |net.flying| && Goes(m, RequestUp, net.flying[i])
    requires net.flying[i].dst == m.Owner()
    ensures Inv(m, Step(m, net, Deliver(i)))
  {
    var c, n := net.flying[i], net.nodes[m.Owner()];
    assert CopyOk(m, net, c) && NodeWired(m, n, m.Owner());
    RequestAccepted(m, n, c.src, c.frame);
    var sends := ToAll(n.neighbours, LinkTraffic(m.link, 0, false));
    var n' := n.(links := n.links + {m.link}, consumed := n.consumed + [Hopped(c.frame)]);
    DeliverIs(m, net, i, Outcome(n', sends));
    AcceptedKeeps(m, net, Step(m, net, Deliver(i)), i, n', CopiesTo(m.Owner(), sends));
  }

  /** The owner has taken the link up. */
  ghost predicate TookUp(m: Mesh, n: Node, n': Node) {
    && n' == n.(links := n.links + {m.link}, consumed := n'.consumed)
    && Count(m, Request, n'.consumed) == Count(m, Request, n.consumed) + 1
    && Count(m, Traffic, n'.consumed) == Count(m, Traffic, n.consumed)
    && Count(m, Close, n'.consumed) == Count(m, Close, n.consumed)
  }

  lemma TookUpNodes(m: Mesh, net: Net, net': Net, n': Node)
    requires m.TreeOk() && Wired(m, net) && forall j :: 0 <= j < |net.nodes| ==> NodeOk(m, net.nodes[j], j)
    requires TookUp(m, net.nodes[m.Owner()], n') && net'.nodes == net.nodes[m.Owner() := n']
    ensures Wired(m, net') && forall j :: 0 <= j < |net.nodes| ==> NodeOk(m, net'.nodes[j], j)
    ensures forall j :: 0 < j < m.Last() ==> (IsSet(m, net', j) <==> IsSet(m, net, j))
  {
    forall j | 0 <= j < |net.nodes| ensures NodeWired(m, net'.nodes[j], j) && NodeOk(m, net'.nodes[j], j) {
      assert NodeWired(m, net.nodes[j], j) && NodeOk(m, net.nodes[j], j);
    }
  }

  lemma TookUpEnds(m: Mesh, net: Net, net': Net, n': Node)
    requires m.TreeOk() && |net.nodes| == m.Size() && EndsOk(m, net)
    requires TookUp(m, net.nodes[m.Owner()], n') && net'.nodes == net.nodes[m.Owner() := n']
    requires !net.closed && !net'.closed && (forall j :: 0 < j < m.Last() ==> IsSet(m, net', j))
    requires InFlight(m, RequestUp, net.flying) == InFlight(m, RequestUp, net'.flying) + 1
    ensures EndsOk(m, net') && Count(m, Request, n'.consumed) == 1
  {
  }

  lemma AcceptedKeeps(m: Mesh, net: Net, net': Net, i: nat, n': Node, added: seq<Copy>)
    requires m.TreeOk() && Inv(m, net) && Replaced(net, net', i, added) && Goes(m, RequestUp, net.flying[i])
    requires net.flying[i].dst == m.Owner() && TookUp(m, net.nodes[m.Owner()], n')
    requires added == CopiesTo(m.Owner(), ToAll(net.nodes[m.Owner()].neighbours, LinkTraffic(m.link, 0, false)))
    requires net'.nodes == net.nodes[m.Owner() := n']
    requires net'.closed == net.closed && net'.sentUp == net.sentUp && net'.sentDown == net.sentDown + 1
    ensures Inv(m, net')
  {
    var c := net.flying[i];
    assert CopyOk(m, net, c) && !m.Downward(c) by { var k := UpwardEnds(m, c); }
    OwnerBroadcast(m, net, LinkTraffic(m.link, 0, false));
    ReplacedCount(m, net, net', i, added, RequestUp);
    ReplacedCount(m, net, net', i, added, TrafficUp);
    ReplacedCount(m, net, net', i, added, TrafficDown);
    TookUpNodes(m, net, net', n');
    AllBehindOwner(m, net, c);
    TookUpEnds(m, net, net', n');
    AcceptCopies(m, net, net', i, added, LinkTraffic(m.link, 0, false));
  }

  /** A request about to reach the owner has left every relay. */
  lemma AllBehindOwner(m: Mesh, net: Net, c: Copy)
    requires m.TreeOk() && |net.nodes| == m.Size() && CopyOk(m, net, c) && Goes(m, RequestUp, c) && c.dst == m.Owner()
    ensures !net.closed && forall j :: 0 < j < m.Last() ==> IsSet(m, net, j)
  {
    var k := UpwardEnds(m, c);
    assert m.depth[c.dst] == 0 && m.depth[c.src] == 1;
  }

  // ----- traffic between the ends -----

  lemma TrafficFacts(m: Mesh, net: Net, c: Copy)
    requires m.TreeOk() && |net.nodes| == m.Size() && CopyOk(m, net, c) && m.IsTraffic(c.frame)
    ensures Count(m, Request, net.nodes[m.Owner()].consumed) == 1
    ensures c.dst in m.path ==> m.Upward(c) || m.Downward(c)
    ensures m.IsClose(c.frame) ==> CloseOk(m, net, c)
  {
  }

  /** The node on the other side of position `q`. */
  function Beyond(m: Mesh, q: nat, from: nat): nat
    requires m.TreeOk() && 0 < q < m.Last()
  {
    if from == m.path[q - 1] then m.path[q + 1] else m.path[q - 1]
  }

  /** A relay passes traffic to the other side, and forgets the link on a close. */
  lemma TrafficGoesOn(m: Mesh, n: Node, q: nat, from: nat, f: Frame)
    requires m.TreeOk() && 0 < q < m.Last() && NodeOk(m, n, m.path[q]) && m.IsTraffic(f)
    requires (from == m.path[q - 1] || from == m.path[q + 1]) && m.link in n.relays
    ensures Receive(n, from, f) ==
            Outcome(if f.isClose then n.(relays := n.relays - {m.link}) else n, [Send(Beyond(m, q, from), Hopped(f))])
    ensures n.relays[m.link] == Relay(m.path[q - 1], m.path[q + 1])
  {
    PathTriple(m, q);
    var k :| 0 < k < m.Last() && m.path[k] == m.path[q] && n.relays[m.link] == Relay(m.path[k - 1], m.path[k + 1]);
    assert m.depth[m.path[k]] == m.depth[m.path[q]];
  }

  /** Without a relay, away from the ends, traffic stops. */
  lemma TrafficStops(m: Mesh, n: Node, i: nat, from: nat, f: Frame)
    requires m.TreeOk() && i < m.Size() && NodeOk(m, n, i) && m.IsTraffic(f)
    requires i != m.Initiator() && i != m.Owner() && m.link !in n.relays
    ensures Receive(n, from, f) == Nothing(n)
  {
  }

  lemma TrafficForwardCopies(m: Mesh, net: Net, net': Net, i: nat, q: nat, n': Node, next: Copy)
    requires m.TreeOk() && |net.nodes| == |net'.nodes| == m.Size() && Replaced(net, net', i, [next])
    requires EndsOk(m, net) && forall c | c in net.flying :: CopyOk(m, net, c)
    requires 0 < q < m.Last() && net'.nodes == net.nodes[m.path[q] := n'] && n' == net.nodes[m.path[q]].(relays := n'.relays)
    requires m.link in n'.relays ==> m.link in net.nodes[m.path[q]].relays
    requires Count(m, Request, net.nodes[m.Owner()].consumed) == 1 && net'.closed == net.closed
    requires m.IsTraffic(next.frame) && (m.Upward(next) || m.Downward(next))
    requires m.IsClose(next.frame) ==> CloseOk(m, net', next)
    ensures forall c | c in net'.flying :: CopyOk(m, net', c)
  {
    ReplacedCopies(net, net', i, [next]);
    RerelayedSets(m, net, net', q, n');
    assert net'.nodes[m.Owner()].consumed == net.nodes[m.Owner()].consumed;
    forall c | c in net'.flying ensures CopyOk(m, net', c) {
      if c in net.flying {
        NoRequestLeft(m, net, c);
        assert CopyOk(m, net, c);
      }
    }
  }

  /** A close passed on has erased one more relay. */
  lemma CloseGoesOn(m: Mesh, net: Net, net': Net, q: nat, n': Node, c: Copy, next: Copy)
    requires m.TreeOk() && |net.nodes| == |net'.nodes| == m.Size() && CloseOk(m, net, c) && (m.Upward(c) || m.Downward(c))
    requires 0 < q < m.Last() && net'.nodes == net.nodes[m.path[q] := n'] && m.link !in n'.relays && net'.closed == net.closed
    requires c.dst == m.path[q] && next.src == m.path[q]
    requires (m.Upward(c) <==> m.Upward(next)) && (m.Downward(c) <==> m.Downward(next))
    ensures CloseOk(m, net', next)
  {
    RerelayedSets(m, net, net', q, n');
    if m.Upward(c) { var k := UpwardEnds(m, c); }
    if m.Downward(c) { var k := DownwardEnds(m, c); }
  }

  /** The copy a relay passes on goes the same way. */
  lemma NextCopy(m: Mesh, q: nat, c: Copy, next: Copy)
    requires m.TreeOk() && 0 < q < m.Last() && c.dst == m.path[q] && (m.Upward(c) || m.Downward(c))
    requires next == Copy(m.path[q], Beyond(m, q, c.src), Hopped(c.frame))
    ensures c.src == m.path[q - 1] || c.src == m.path[q + 1]
    ensures (m.Upward(c) <==> m.Upward(next)) && (m.Downward(c) <==> m.Downward(next))
    ensures forall way :: Goes(m, way, next) <==> Goes(m, way, c)
  {
    PathTriple(m, q);
    if m.Upward(c) {
      var k := UpwardEnds(m, c);
      assert k + 1 == q && m.Upward(next);
      var k' := UpwardEnds(m, next);
    } else {
      var k := DownwardEnds(m, c);
      assert m.depth[m.path[k]] == m.depth[m.path[q]] && k == q && m.Downward(next);
      var k' := DownwardEnds(m, next);
    }
  }

  lemma TrafficForwardEnds(m: Mesh, net: Net, net': Net, q: nat, n': Node)
    requires m.TreeOk() && |net.nodes| == m.Size() && EndsOk(m, net)
    requires 0 < q < m.Last() && net'.nodes == net.nodes[m.path[q] := n'] && n' == net.nodes[m.path[q]].(relays := n'.relays)
    requires m.link in n'.relays ==> m.link in net.nodes[m.path[q]].relays
    requires net.closed || n' == net.nodes[m.path[q]]
    requires net'.closed == net.closed && InFlight(m, RequestUp, net'.flying) == InFlight(m, RequestUp, net.flying)
    ensures EndsOk(m, net')
  {
    RerelayedSets(m, net, net', q, n');
    assert IsSet(m, net', q) ==> IsSet(m, net, q);
    forall j | 0 < j < m.Last() ensures IsSet(m, net', j) ==> IsSet(m, net, j) {}
    if !net.closed {
      assert net'.nodes == net.nodes;
      forall j | 0 < j < m.Last() ensures IsSet(m, net, j) ==> IsSet(m, net', j) {}
    }
    var a, o, a', o' := net.nodes[m.Initiator()], net.nodes[m.Owner()], net'.nodes[m.Initiator()], net'.nodes[m.Owner()];
    assert a'.consumed == a.consumed && o'.consumed == o.consumed && o'.links == o.links;
  }

  lemma TrafficForwarded(m: Mesh, net: Net, net': Net, i: nat, q: nat, n': Node, next: Copy)
    requires m.TreeOk() && Inv(m, net) && Replaced(net, net', i, [next]) && m.IsTraffic(net.flying[i].frame)
    requires 0 < q < m.Last() && net.flying[i].dst == m.path[q] && IsSet(m, net, q)
    requires var n := net.nodes[m.path[q]];
      n' == (if net.flying[i].frame.isClose then n.(relays := n.relays - {m.link}) else n)
    requires net.nodes[m.path[q]].relays[m.link] == Relay(m.path[q - 1], m.path[q + 1])
    requires net'.nodes == net.nodes[m.path[q] := n']
    requires net'.closed == net.closed && net'.sentUp == net.sentUp && net'.sentDown == net.sentDown
    requires next == Copy(m.path[q], Beyond(m, q, net.flying[i].src), Hopped(net.flying[i].frame))
    ensures Inv(m, net')
  {
    var c := net.flying[i];
    TrafficFacts(m, net, c);
    NextCopy(m, q, c, next);
    ForwardCounts(m, net, net', i, next);
    RerelayedNodes(m, net, net', q, n');
    if c.frame.isClose { CloseGoesOn(m, net, net', q, n', c, next); }
    TrafficForwardCopies(m, net, net', i, q, n', next);
    TrafficForwardEnds(m, net, net', q, n');
  }

  lemma NothingStep(m: Mesh, net: Net, i: nat)
    requires m.TreeOk() && Inv(m, net) && i < |net.flying| && net.flying[i].dst < |net.nodes|
    requires Receive(net.nodes[net.flying[i].dst], net.flying[i].src, net.flying[i].frame) == Nothing(net.nodes[net.flying[i].dst])
    requires !(m.IsRequest(net.flying[i].frame) && net.flying[i].frame.dest in net.nodes[net.flying[i].dst].owned)
    requires !Goes(m, RequestUp, net.flying[i])
    requires net.closed || (!Goes(m, TrafficUp, net.flying[i]) && !Goes(m, TrafficDown, net.flying[i]))
    ensures Inv(m, Step(m, net, Deliver(i)))
  {
    var n := net.nodes[net.flying[i].dst];
    DeliverIs(m, net, i, Nothing(n));
    AlikeStep(m, net, Step(m, net, Deliver(i)), i, [], net.flying[i].dst, n);
  }

  lemma TrafficRelayStep(m: Mesh, net: Net, i: nat, q: nat)
    requires m.TreeOk() && Inv(m, net) && i < |net.flying| && m.IsTraffic(net.flying[i].frame)
    requires 0 < q < m.Last() && net.flying[i].dst == m.path[q]
    ensures Inv(m, Step(m, net, Deliver(i)))
  {
    var c, n := net.flying[i], net.nodes[m.path[q]];
    TrafficFacts(m, net, c);
    PathTriple(m, q);
    assert NodeOk(m, n, m.path[q]);
    if m.link in n.relays {
      var next := Copy(m.path[q], Beyond(m, q, c.src), Hopped(c.frame));
      NextCopy(m, q, c, next);
      TrafficGoesOn(m, n, q, c.src, c.frame);
      var n' := if c.frame.isClose then n.(relays := n.relays - {m.link}) else n;
      DeliverIs(m, net, i, Outcome(n', [Send(next.dst, Hopped(c.frame))]));
      OneCopy(m.path[q], next.dst, Hopped(c.frame));
      TrafficForwarded(m, net, Step(m, net, Deliver(i)), i, q, n', next);
    } else {
      assert !IsSet(m, net, q);
      TrafficStops(m, n, m.path[q], c.src, c.frame);
      NothingStep(m, net, i);
    }
  }

  // ----- traffic at the ends -----

  /** The end has consumed one more frame of the link. */
  ghost predicate Took(m: Mesh, n: Node, n': Node, f: Frame) {
    && n' == n.(consumed := n'.consumed)
    && Count(m, Request, n'.consumed) == Count(m, Request, n.consumed)
    && Count(m, Traffic, n'.consumed) == Count(m, Traffic, n.consumed) + 1
    && Count(m, Close, n'.consumed) == Count(m, Close, n.consumed) + (if m.IsClose(f) then 1 else 0)
  }

  lemma TrafficTaken(m: Mesh, n: Node, from: nat, f: Frame)
    requires m.IsTraffic(f) && m.link in n.links
    ensures Receive(n, from, f) == Outcome(n.(consumed := n.consumed + [Hopped(f)]), [])
    ensures Took(m, n, n.(consumed := n.consumed + [Hopped(f)]), f)
  {
    CountAppend(m, Request, n.consumed, Hopped(f));
    CountAppend(m, Traffic, n.consumed, Hopped(f));
    CountAppend(m, Close, n.consumed, Hopped(f));
  }

  lemma TookNodes(m: Mesh, net: Net, net': Net, e: nat, n': Node, f: Frame)
    requires m.TreeOk() && Wired(m, net) && forall j :: 0 <= j < |net.nodes| ==> NodeOk(m, net.nodes[j], j)
    requires e < m.Size() && Took(m, net.nodes[e], n', f) && net'.nodes == net.nodes[e := n'] && net'.closed == net.closed
    ensures Wired(m, net') && forall j :: 0 <= j < |net.nodes| ==> NodeOk(m, net'.nodes[j], j)
    ensures forall j :: 0 < j < m.Last() ==> (IsSet(m, net', j) <==> IsSet(m, net, j))
    ensures forall c :: CopyOk(m, net, c) ==> CopyOk(m, net', c)
  {
    forall j | 0 <= j < |net.nodes| ensures NodeWired(m, net'.nodes[j], j) && NodeOk(m, net'.nodes[j], j) {
      assert NodeWired(m, net.nodes[j], j) && NodeOk(m, net.nodes[j], j);
    }
    assert forall j :: 0 < j < m.Last() ==> (IsSet(m, net', j) <==> IsSet(m, net, j));
  }

  /** A close that arrives at an end has erased every relay. */
  lemma CloseArrives(m: Mesh, net: Net, c: Copy)
    requires m.TreeOk() && |net.nodes| == m.Size() && CloseOk(m, net, c)
    requires (m.Upward(c) && c.dst == m.Owner()) || (m.Downward(c) && c.dst == m.Initiator())
    ensures net.closed && forall j :: 0 < j < m.Last() ==> !IsSet(m, net, j)
  {
    if m.Upward(c) {
      var k := UpwardEnds(m, c);
      assert m.depth[c.dst] == 0 && k == m.Last() - 1;
    } else {
      var k := DownwardEnds(m, c);
      assert m.depth[c.dst] == m.Last() && k == 0;
    }
  }

  lemma TookEnds(m: Mesh, net: Net, net': Net, e: nat, n': Node, f: Frame)
    requires m.TreeOk() && |net.nodes| == m.Size() && EndsOk(m, net) && (e == m.Initiator() || e == m.Owner())
    requires Took(m, net.nodes[e], n', f) && net'.nodes == net.nodes[e := n'] && net'.closed == net.closed
    requires Count(m, Request, net.nodes[m.Owner()].consumed) == 1
    requires m.IsClose(f) ==> net.closed && forall j :: 0 < j < m.Last() ==> !IsSet(m, net, j)
    requires InFlight(m, RequestUp, net'.flying) == InFlight(m, RequestUp, net.flying)
    ensures EndsOk(m, net')
  {
    assert m.depth[m.Initiator()] != m.depth[m.Owner()];
    assert forall j :: 0 < j < m.Last() ==> m.depth[m.path[j]] != m.depth[m.Initiator()] && m.depth[m.path[j]] != m.depth[m.Owner()];
    assert forall j :: 0 < j < m.Last() ==> (IsSet(m, net', j) <==> IsSet(m, net, j));
  }

  /** The end a copy arrives at decides its way. */
  lemma EndWay(m: Mesh, c: Copy)
    requires m.TreeOk() && (m.Upward(c) || m.Downward(c)) && (c.dst == m.Initiator() || c.dst == m.Owner())
    ensures m.Initiator() != m.Owner()
    ensures m.Upward(c) <==> c.dst == m.Owner()
    ensures m.Downward(c) <==> c.dst == m.Initiator()
  {
    assert m.depth[m.Initiator()] == m.Last() && m.depth[m.Owner()] == 0;
    if m.Upward(c) { var k := UpwardEnds(m, c); } else { var k := DownwardEnds(m, c); }
  }

  lemma TrafficTakenKeeps(m: Mesh, net: Net, net': Net, i: nat, n': Node)
    requires m.TreeOk() && Inv(m, net) && Replaced(net, net', i, []) && m.IsTraffic(net.flying[i].frame)
    requires net.flying[i].dst == m.Initiator() || net.flying[i].dst == m.Owner()
    requires Took(m, net.nodes[net.flying[i].dst], n', net.flying[i].frame)
    requires net'.nodes == net.nodes[net.flying[i].dst := n']
    requires net'.closed == net.closed && net'.sentUp == net.sentUp && net'.sentDown == net.sentDown
    ensures Inv(m, net')
  {
    var c := net.flying[i];
    TrafficFacts(m, net, c);
    EndWay(m, c);
    if m.IsClose(c.frame) { CloseArrives(m, net, c); }
    ReplacedCount(m, net, net', i, [], RequestUp);
    ReplacedCount(m, net, net', i, [], TrafficUp);
    ReplacedCount(m, net, net', i, [], TrafficDown);
    ReplacedCopies(net, net', i, []);
    TookNodes(m, net, net', c.dst, n', c.frame);
    TookEnds(m, net, net', c.dst, n', c.frame);
  }

  lemma TrafficEndStep(m: Mesh, net: Net, i: nat)
    requires m.TreeOk() && Inv(m, net) && i < |net.flying| && m.IsTraffic(net.flying[i].frame)
    requires net.flying[i].dst == m.Initiator() || net.flying[i].dst == m.Owner()
    ensures Inv(m, Step(m, net, Deliver(i)))
  {
    var c, n := net.flying[i], net.nodes[net.flying[i].dst];
    TrafficFacts(m, net, c);
    assert NodeOk(m, n, c.dst);
    TrafficTaken(m, n, c.src, c.frame);
    var n' := n.(consumed := n.consumed + [Hopped(c.frame)]);
    DeliverIs(m, net, i, Outcome(n', []));
    assert CopiesTo(c.dst, []) == [];
    TrafficTakenKeeps(m, net, Step(m, net, Deliver(i)), i, n');
  }

  // ----- copies off the path -----

  /** Off the path a copy about the link is ignored. */
  lemma StrayIsIgnored(m: Mesh, net: Net, c: Copy)
    requires m.TreeOk() && Inv(m, net) && c in net.flying && m.About(c.frame) && c.dst !in m.path && c.dst < |net.nodes|
    ensures Receive(net.nodes[c.dst], c.src, c.frame) == Nothing(net.nodes[c.dst])
    ensures c.frame.dest !in net.nodes[c.dst].owned || m.IsTraffic(c.frame)
    ensures !m.Upward(c) && !m.Downward(c)
  {
    var n := net.nodes[c.dst];
    assert CopyOk(m, net, c) && NodeWired(m, n, c.dst) && NodeOk(m, n, c.dst);
    assert m.Initiator() in m.path && m.Owner() in m.path;
    assert m.link !in n.relays;
    assert !m.Upward(c) by { if m.Upward(c) { var k := UpwardEnds(m, c); } }
  }

  lemma AboutStep(m: Mesh, net: Net, i: nat)
    requires m.TreeOk() && Inv(m, net) && i < |net.flying| && m.About(net.flying[i].frame) && net.flying[i].dst in m.path
    ensures Inv(m, Step(m, net, Deliver(i)))
  {
    var c := net.flying[i];
    Position(m, c.dst);
    var q := m.Last() - m.depth[c.dst];
    assert CopyOk(m, net, c);
    if m.IsTraffic(c.frame) {
      if 0 < q < m.Last() { TrafficRelayStep(m, net, i, q); } else { TrafficEndStep(m, net, i); }
    } else {
      var k := UpwardEnds(m, c);
      assert k + 1 == q;
      if q < m.Last() { RequestForwardStep(m, net, i, q); } else { AcceptStep(m, net, i); }
    }
  }

  lemma DeliverStep(m: Mesh, net: Net, i: nat)
    requires m.TreeOk() && Inv(m, net) && Steady(m, net, Deliver(i))
    ensures Inv(m, Step(m, net, Deliver(i)))
  {
    if i < |net.flying| && net.flying[i].dst < |net.nodes| {
      var c := net.flying[i];
      if !m.About(c.frame) {
        OtherDelivered(m, net, i);
      } else if c.dst in m.path {
        AboutStep(m, net, i);
      } else {
        StrayIsIgnored(m, net, c);
        NothingStep(m, net, i);
      }
    }
  }

  lemma OtherDelivered(m: Mesh, net: Net, i: nat)
    requires m.TreeOk() && Inv(m, net) && i < |net.flying| && net.flying[i].dst < |net.nodes|
    requires !m.About(net.flying[i].frame) && Steady(m, net, Deliver(i))
    ensures Inv(m, Step(m, net, Deliver(i)))
  {
    var c, n := net.flying[i], net.nodes[net.flying[i].dst];
    assert NodeWired(m, n, c.dst);
    OtherFrame(m, n, c.src, c.frame);
    var out := Receive(n, c.src, c.frame);
    DeliverIs(m, net, i, out);
    AlikeStep(m, net, Step(m, net, Deliver(i)), i, CopiesTo(c.dst, out.sends), c.dst, out.node);
  }

  // ----- whole runs -----

  lemma StepInv(m: Mesh, net: Net, ev: Event)
    requires m.TreeOk() && Inv(m, net) && Steady(m, net, ev)
    ensures Inv(m, Step(m, net, ev))
  {
    match ev
    case Put(isClose, byOwner) => SendStep(m, net, isClose, byOwner);
    case Other(i, f) => OtherStep(m, net, i, f);
    case Deliver(i) => DeliverStep(m, net, i);
  }

  lemma StartInv(m: Mesh, net: Net)
    requires m.TreeOk() && Start(m, net)
    ensures Inv(m, net)
  {
    var f := LinkRequest(m.dest, 0, m.link);
    InitiatorBroadcast(m, net, f);
    assert m.depth[m.Initiator()] == m.Last() && m.depth[m.Owner()] == 0;
    forall i | 0 <= i < |net.nodes| ensures NodeOk(m, net.nodes[i], i) {}
    forall c | c in net.flying ensures CopyOk(m, net, c) {
      if m.Upward(c) { assert c.src == m.path[0]; }
    }
    assert net.nodes[m.Owner()].consumed == [] && net.nodes[m.Initiator()].consumed == [];
  }

  /** A run: every event steady when it happens. */
  ghost predicate Runs(m: Mesh, net: Net, evs: seq<Event>)
    requires m.TreeOk() && |net.nodes| == m.Size()
    decreases |evs|
  {
    evs == [] || (Steady(m, net, evs[0]) && Runs(m, Step(m, net, evs[0]), evs[1..]))
  }

  function Run(m: Mesh, net: Net, evs: seq<Event>): (end: Net)
    requires m.TreeOk() && |net.nodes| == m.Size()
    ensures |end.nodes| == m.Size()
    decreases |evs|
  {
    if evs == [] then net else Run(m, Step(m, net, evs[0]), evs[1..])
  }

  lemma {:induction false} RunInv(m: Mesh, net: Net, evs: seq<Event>)
    requires m.TreeOk() && Inv(m, net) && Runs(m, net, evs)
    ensures Inv(m, Run(m, net, evs))
    decreases |evs|
  {
    if evs != [] {
      StepInv(m, net, evs[0]);
      RunInv(m, Step(m, net, evs[0]), evs[1..]);
    }
  }

  /** The request is accepted at most once; it has been accepted exactly once as
      soon as no copy of it is on the path any more, and never before. */
  lemma AcceptedExactlyOnce(m: Mesh, net: Net, evs: seq<Event>)
    requires m.TreeOk() && Start(m, net) && Runs(m, net, evs)
    ensures var now := Run(m, net, evs);
      && Count(m, Request, now.nodes[m.Owner()].consumed) + InFlight(m, RequestUp, now.flying) == 1
      && (m.link in now.nodes[m.Owner()].links <==> InFlight(m, RequestUp, now.flying) == 0)
      && forall i :: 0 <= i < |now.nodes| && i != m.Owner() ==> Count(m, Request, now.nodes[i].consumed) == 0
  {
    StartInv(m, net);
    RunInv(m, net, evs);
    var now := Run(m, net, evs);
    assert forall i :: 0 <= i < |now.nodes| ==> NodeOk(m, now.nodes[i], i);
  }

  /** What carries the link runs along the path; a copy elsewhere changes nothing
      and is not passed on. Only nodes between the ends hold a relay, and it points
      along the path. */
  lemma StaysOnPath(m: Mesh, net: Net, evs: seq<Event>, c: Copy)
    requires m.TreeOk() && Start(m, net) && Runs(m, net, evs)
    requires c in Run(m, net, evs).flying && m.About(c.frame)
    ensures var now := Run(m, net, evs);
      && (m.Upward(c) || m.Downward(c) ||
          (c.dst < |now.nodes| ==> Receive(now.nodes[c.dst], c.src, c.frame) == Nothing(now.nodes[c.dst])))
      && forall i :: 0 <= i < |now.nodes| && m.link in now.nodes[i].relays ==> RelayOk(m, i, now.nodes[i].relays[m.link])
  {
    StartInv(m, net);
    RunInv(m, net, evs);
    var now := Run(m, net, evs);
    assert CopyOk(m, now, c) && forall i :: 0 <= i < |now.nodes| ==> NodeOk(m, now.nodes[i], i);
    if c.dst !in m.path && c.dst < |now.nodes| { StrayIsIgnored(m, now, c); }
  }

  /** Until a close is sent, each packet an end has put on the link is either still
      on its way along the path or has been consumed at the other end, once. */
  lemma TrafficConserved(m: Mesh, net: Net, evs: seq<Event>)
    requires m.TreeOk() && Start(m, net) && Runs(m, net, evs) && !Run(m, net, evs).closed
    ensures Conserved(m, Run(m, net, evs))
  {
    StartInv(m, net);
    RunInv(m, net, evs);
  }

  /** Once a close has arrived at either end, no node relays the link. */
  lemma CloseErasesRelays(m: Mesh, net: Net, evs: seq<Event>, end: nat)
    requires m.TreeOk() && Start(m, net) && Runs(m, net, evs) && (end == m.Initiator() || end == m.Owner())
    requires Count(m, Close, Run(m, net, evs).nodes[end].consumed) > 0
    ensures var now := Run(m, net, evs); forall i :: 0 <= i < |now.nodes| ==> m.link !in now.nodes[i].relays
  {
    StartInv(m, net);
    RunInv(m, net, evs);
    NoRelayLeft(m, Run(m, net, evs));
  }

  lemma NoRelayLeft(m: Mesh, net: Net)
    requires m.TreeOk() && |net.nodes| == m.Size() && NoneSet(m, net)
    requires forall i :: 0 <= i < |net.nodes| ==> NodeOk(m, net.nodes[i], i)
    ensures forall i :: 0 <= i < |net.nodes| ==> m.link !in net.nodes[i].relays
  {
    forall k | 0 < k < m.Last() ensures m.link !in net.nodes[m.path[k]].relays { assert !IsSet(m, net, k); }
  }

  // ----- every node has its path -----

  predicate RootedTree(parent: seq<nat>, depth: seq<nat>, owner: nat) {
    && |depth| == |parent| && owner < |parent| && depth[owner] == 0
    && forall i :: 0 <= i < |parent| && i != owner ==> parent[i] < |parent| && depth[i] == depth[parent[i]] + 1
  }

  /** From any node but the owner, the parents lead to the owner. */
  lemma {:induction false} PathFrom(parent: seq<nat>, depth: seq<nat>, owner: nat, i: nat, dest: Hash, link: Hash)
    returns (m: Mesh)
    requires RootedTree(parent, depth, owner) && i < |parent| && i != owner
    ensures m.TreeOk() && m.parent == parent && m.depth == depth && m.dest == dest && m.link == link
    ensures m.Initiator() == i && m.Owner() == owner
    decreases depth[i]
  {
    if parent[i] == owner {
      m := Mesh(parent, depth, [i, owner], dest, link);
    } else {
      var up := PathFrom(parent, depth, owner, parent[i], dest, link);
      m := up.(path := [i] + up.path);
      assert forall k :: 0 < k < |m.path| ==> m.path[k] == up.path[k - 1];
    }
  }
}
