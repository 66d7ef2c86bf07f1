/** Loop-free routing on any mesh: announces flood, cached announces answer path
    requests, and packets follow the path tables, all at once. */
module MeshRouting {
  import opened MeshNode

  /** A copy under way. For packets that routing forwards it also notes how often
      the packet has been forwarded, the hop count its first forwarder had, and
      the hop count its last forwarder had when it forwarded. */
  datatype Copy = Copy(src: nat, dst: nat, frame: Frame, forwards: nat, budget: nat, last: nat)

  /** Copies never leave `flying`, so loss, repetition and reordering are free. */
  datatype Net = Net(nodes: seq<Node>, flying: set<Copy>)

  datatype Event =
    | Originate(node: nat, frame: Frame)
    | Deliver(copy: Copy)

  /** Local senders put a packet on every link: own announces, path requests and
      packets to single destinations. */
  predicate MayOriginate(n: Node, f: Frame) {
    f.hops == 0 &&
    match f
    case Announce(dest, _, authentic) => authentic ==> dest in n.owned
    case _ => true
  }

  function Launch(src: nat, sends: seq<Send>, forwards: nat, budget: nat, last: nat): set<Copy> {
    set s | s in sends :: Copy(src, s.dst, s.frame, forwards, budget, last)
  }

  /** The hop count `n` has for `d`, as the copies it forwards record it. */
  function Hops(n: Node, d: Hash): nat { if d in n.paths then n.paths[d].hops else 0 }

  function Step(net: Net, ev: Event): Net {
    match ev
    case Originate(i, f) =>
      if i < |net.nodes| && MayOriginate(net.nodes[i], f)
      then net.(flying := net.flying + Launch(i, ToAll(net.nodes[i].neighbours, f), 0, 0, 0))
      else net
    case Deliver(c) =>
      if c in net.flying && c.dst < |net.nodes| then
        var n := net.nodes[c.dst];
        var o := Receive(n, c.src, c.frame);
        var h := Hops(n, c.frame.dest);
        Net(net.nodes[c.dst := o.node],
            net.flying + Launch(c.dst, o.sends, c.forwards + 1, if c.forwards == 0 then h else c.budget, h))
      else net
  }

  /** The hop byte of announces does not wrap in the run. */
  predicate NoWrap(ev: Event) { ev.Deliver? && ev.copy.frame.Announce? ==> ev.copy.frame.hops < 255 }

  function Run(net: Net, evs: seq<Event>): Net
    decreases |evs|
  {
    if evs == [] then net else Run(Step(net, evs[0]), evs[1..])
  }

  /** Node `o` alone owns destination `d`, everyone's tables are empty and
      nothing is under way. */
  ghost predicate Fresh(net: Net, d: Hash, o: nat) {
    && o < |net.nodes| && net.flying == {}
    && forall i :: 0 <= i < |net.nodes| ==> net.nodes[i].paths == map[] && (d in net.nodes[i].owned <==> i == o)
  }

  // ----- the invariant -----

  /** The owner is at distance 0; others know a hop count or nothing. */
  predicate Knows(net: Net, d: Hash, o: nat, i: nat) {
    i == o || (i < |net.nodes| && d in net.nodes[i].paths)
  }

  function Rank(net: Net, d: Hash, o: nat, i: nat): nat
    requires Knows(net, d, o, i)
  {
    if i == o then 0 else net.nodes[i].paths[d].hops
  }

  /** Every entry is at least one more than what its next hop has. */
  ghost predicate PathOk(net: Net, d: Hash, o: nat, i: nat) {
    i < |net.nodes| && i != o && d in net.nodes[i].paths ==>
      var p := net.nodes[i].paths[d];
      && Knows(net, d, o, p.via) && Rank(net, d, o, p.via) + 1 <= p.hops < 256
      && p.packet.Announce? && p.packet.dest == d && p.packet.hops == p.hops
  }

  /** A cached packet is an authentic announce of its own destination, at the entry's
      hop count. */
  ghost predicate CacheOk(n: Node) {
    forall e | e in n.paths :: n.paths[e].packet == Announce(e, n.paths[e].hops, true)
  }

  /** An announce under way was sent by a node at least that near; a routed
      packet is within its budget. */
  ghost predicate CopyOk(net: Net, d: Hash, o: nat, c: Copy) {
    c.frame.dest == d ==>
      match c.frame
      case Announce(_, k, authentic) => authentic ==> Knows(net, d, o, c.src) && Rank(net, d, o, c.src) <= k
      case Single(_, _, _) => c.forwards > 0 ==>
        && Knows(net, d, o, c.src) && Knows(net, d, o, c.dst)
        && Rank(net, d, o, c.dst) + c.forwards <= c.budget
        && Rank(net, d, o, c.dst) + 1 <= c.last
      case _ => true
  }

  ghost predicate Descending(net: Net, d: Hash, o: nat) {
    && o < |net.nodes|
    && (forall i :: 0 <= i < |net.nodes| ==> (d in net.nodes[i].owned <==> i == o) && CacheOk(net.nodes[i]))
    && (forall i :: 0 <= i < |net.nodes| ==> PathOk(net, d, o, i))
    && (forall c | c in net.flying :: CopyOk(net, d, o, c))
  }

  /** Distances only shrink from `a` to `b`. */
  ghost predicate Nearer(a: Net, b: Net, d: Hash, o: nat) {
    |a.nodes| == |b.nodes| && forall i | Knows(a, d, o, i) :: Knows(b, d, o, i) && Rank(b, d, o, i) <= Rank(a, d, o, i)
  }

  lemma CopyStaysOk(a: Net, b: Net, d: Hash, o: nat, c: Copy)
    requires CopyOk(a, d, o, c) && Nearer(a, b, d, o)
    ensures CopyOk(b, d, o, c)
  {
  }

  lemma SamePathStaysOk(a: Net, b: Net, d: Hash, o: nat, i: nat)
    requires PathOk(a, d, o, i) && Nearer(a, b, d, o) && i < |a.nodes|
    requires d in b.nodes[i].paths ==> d in a.nodes[i].paths && b.nodes[i].paths[d] == a.nodes[i].paths[d]
    ensures PathOk(b, d, o, i)
  {
  }

  /** Only an accepted announce for `d` touches the entry for `d`. */
  lemma OtherFramesKeepPath(n: Node, from: nat, f: Frame, d: Hash)
    requires !(f.Announce? && f.authentic && f.dest == d)
    ensures var n' := Receive(n, from, f).node;
      n'.owned == n.owned && (d in n'.paths <==> d in n.paths) && (d in n.paths ==> n'.paths[d] == n.paths[d])
  {
  }

  /** The tables after a delivery: distances shrink and entries still descend. */
  lemma DeliverPaths(net: Net, d: Hash, o: nat, c: Copy)
    requires Descending(net, d, o) && c in net.flying && c.dst < |net.nodes| && NoWrap(Deliver(c))
    ensures var net' := Step(net, Deliver(c));
      Nearer(net, net', d, o) && forall i :: 0 <= i < |net.nodes| ==> PathOk(net', d, o, i)
  {
    var net' := Step(net, Deliver(c));
    assert CopyOk(net, d, o, c);
    if !(c.frame.Announce? && c.frame.authentic && c.frame.dest == d) {
      OtherFramesKeepPath(net.nodes[c.dst], c.src, c.frame, d);
    }
    assert Nearer(net, net', d, o);
    forall i | 0 <= i < |net.nodes| ensures PathOk(net', d, o, i) {
      assert PathOk(net, d, o, i);
      if i != c.dst { SamePathStaysOk(net, net', d, o, i); }
    }
  }

  /** What a delivery sends keeps the promise made by its sender's entry. */
  lemma DeliverSends(net: Net, d: Hash, o: nat, c: Copy, s: Send)
    requires Descending(net, d, o) && c in net.flying && c.dst < |net.nodes| && NoWrap(Deliver(c))
    requires s in Receive(net.nodes[c.dst], c.src, c.frame).sends
    ensures var n := net.nodes[c.dst];
      var h := Hops(n, c.frame.dest);
      CopyOk(Step(net, Deliver(c)), d, o, Copy(c.dst, s.dst, s.frame, c.forwards + 1, if c.forwards == 0 then h else c.budget, h))
  {
    DeliverPaths(net, d, o, c);
    assert CopyOk(net, d, o, c) && PathOk(net, d, o, c.dst);
    if s.frame.dest == d && !s.frame.LinkTraffic? && !s.frame.LinkRequest? { SentAbout(net.nodes[c.dst], c.src, c.frame, s, d); }
  }

  /** What a node sends about `d` is an announce it has or owns, or a packet for
      `d` going to its next hop. */
  lemma SentAbout(n: Node, from: nat, f: Frame, s: Send, d: Hash)
    requires CacheOk(n) && s in Receive(n, from, f).sends && s.frame.dest == d
    requires !s.frame.LinkTraffic? && !s.frame.LinkRequest?
    ensures f.dest == d && !s.frame.PathRequest?
    ensures s.frame.Single? ==> d !in n.owned && d in n.paths && s.dst == n.paths[d].via && f.Single?
    ensures s.frame.Announce? ==>
      || (f.Announce? && s.frame == Hopped(f))
      || (f.PathRequest? && d in n.owned && s.frame.hops == 0)
      || (f.PathRequest? && d !in n.owned && d in n.paths && s.frame == n.paths[d].packet)
  {
  }

  lemma StepDescends(net: Net, d: Hash, o: nat, ev: Event)
    requires Descending(net, d, o) && NoWrap(ev)
    ensures Descending(Step(net, ev), d, o) && Nearer(net, Step(net, ev), d, o)
  {
    match ev
    case Originate(i, f) =>
      forall j | 0 <= j < |net.nodes| ensures PathOk(Step(net, ev), d, o, j) {
        SamePathStaysOk(net, Step(net, ev), d, o, j);
      }
      forall c | c in Step(net, ev).flying ensures CopyOk(Step(net, ev), d, o, c) {
        if c in net.flying { CopyStaysOk(net, Step(net, ev), d, o, c); }
      }
    case Deliver(c) =>
      if c in net.flying && c.dst < |net.nodes| {
        var net' := Step(net, ev);
        DeliverPaths(net, d, o, c);
        OwnedStays(net, d, o, c);
        forall x | x in net'.flying ensures CopyOk(net', d, o, x) {
          if x in net.flying {
            CopyStaysOk(net, net', d, o, x);
          } else {
            var s :| s in Receive(net.nodes[c.dst], c.src, c.frame).sends
              && x.dst == s.dst && x.frame == s.frame;
            DeliverSends(net, d, o, c, s);
          }
        }
      }
  }

  lemma OwnedStays(net: Net, d: Hash, o: nat, c: Copy)
    requires c.dst < |net.nodes|
    ensures Receive(net.nodes[c.dst], c.src, c.frame).node.owned == net.nodes[c.dst].owned
    ensures CacheOk(net.nodes[c.dst]) ==> CacheOk(Receive(net.nodes[c.dst], c.src, c.frame).node)
  {
  }

  lemma {:induction false} RunDescends(net: Net, d: Hash, o: nat, evs: seq<Event>)
    requires Descending(net, d, o) && forall ev | ev in evs :: NoWrap(ev)
    ensures Descending(Run(net, evs), d, o) && Nearer(net, Run(net, evs), d, o)
    decreases |evs|
  {
    if evs != [] {
      assert evs[0] in evs && forall ev | ev in evs[1..] :: ev in evs;
      StepDescends(net, d, o, evs[0]);
      RunDescends(Step(net, evs[0]), d, o, evs[1..]);
    }
  }

  lemma FreshDescends(net: Net, d: Hash, o: nat)
    requires Fresh(net, d, o)
    ensures Descending(net, d, o)
  {
    forall i | 0 <= i < |net.nodes| ensures PathOk(net, d, o, i) && CacheOk(net.nodes[i]) {
      assert net.nodes[i].paths == map[];
    }
  }

  // ----- what the invariant gives -----

  /** In every run a node's hop count is at least one more than its next hop's. */
  lemma EntriesDescend(net: Net, d: Hash, o: nat, evs: seq<Event>, i: nat)
    requires Fresh(net, d, o) && forall ev | ev in evs :: NoWrap(ev)
    requires i < |Run(net, evs).nodes| && i != o && d in Run(net, evs).nodes[i].paths
    ensures var now := Run(net, evs);
      var p := now.nodes[i].paths[d];
      Knows(now, d, o, p.via) && Rank(now, d, o, p.via) + 1 <= p.hops
  {
    FreshDescends(net, d, o);
    RunDescends(net, d, o, evs);
    assert PathOk(Run(net, evs), d, o, i);
  }

  /** The nodes met when every packet is passed to the recorded next hop. */
  ghost function Route(net: Net, d: Hash, o: nat, i: nat): seq<nat>
    requires Descending(net, d, o) && Knows(net, d, o, i)
    decreases Rank(net, d, o, i)
  {
    if i == o then [o]
    else
      assert PathOk(net, d, o, i);
      [i] + Route(net, d, o, net.nodes[i].paths[d].via)
  }

  /** Following entries reaches the owner in at most `hops` forwards, without
      meeting a node twice and without a step the echo check would refuse. */
  lemma {:induction false} RouteReaches(net: Net, d: Hash, o: nat, i: nat)
    requires Descending(net, d, o) && Knows(net, d, o, i)
    ensures var r := Route(net, d, o, i);
      && r[0] == i && r[|r| - 1] == o && |r| - 1 <= Rank(net, d, o, i)
      && (forall k :: 0 <= k < |r| ==> Knows(net, d, o, r[k]) && Rank(net, d, o, r[k]) + k <= Rank(net, d, o, i))
      && (forall k :: 0 <= k < |r| - 1 ==> r[k] != o && r[k + 1] == net.nodes[r[k]].paths[d].via)
      && (forall j, k :: 0 <= j < k < |r| ==> r[j] != r[k])
    decreases Rank(net, d, o, i)
  {
    if i != o {
      assert PathOk(net, d, o, i);
      var v := net.nodes[i].paths[d].via;
      RouteReaches(net, d, o, v);
      var rest, r := Route(net, d, o, v), Route(net, d, o, i);
      forall k | 0 <= k < |rest| ensures r[k + 1] == rest[k] && Rank(net, d, o, rest[k]) < Rank(net, d, o, i) {}
    }
  }

  /** Two nodes never have each other as next hop. */
  lemma NoMutualNextHops(net: Net, d: Hash, o: nat, i: nat, j: nat)
    requires Descending(net, d, o) && i < |net.nodes| && j < |net.nodes| && i != o && j != o
    requires d in net.nodes[i].paths && d in net.nodes[j].paths
    ensures !(net.nodes[i].paths[d].via == j && net.nodes[j].paths[d].via == i)
  {
    assert PathOk(net, d, o, i) && PathOk(net, d, o, j);
  }

  /** While tables change, a routed packet is forwarded at most as often as the
      hop count its first forwarder had. */
  lemma WithinBudget(net: Net, d: Hash, o: nat, evs: seq<Event>, c: Copy)
    requires Fresh(net, d, o) && forall ev | ev in evs :: NoWrap(ev)
    requires c in Run(net, evs).flying && c.frame.Single? && c.frame.dest == d && c.forwards > 0
    ensures c.forwards <= c.budget
  {
    FreshDescends(net, d, o);
    RunDescends(net, d, o, evs);
    assert CopyOk(Run(net, evs), d, o, c);
  }

  /** A routed packet is lost exactly at a node that is not its end, awaits no proof
      of it and has the forwarder as next hop; and then the forwarder's own hop count
      has since dropped by at least two. Everywhere else it is consumed or passed on. */
  lemma RoutedPacketGoesOn(net: Net, d: Hash, o: nat, evs: seq<Event>, c: Copy)
    requires Fresh(net, d, o) && forall ev | ev in evs :: NoWrap(ev)
    requires c in Run(net, evs).flying && c.dst < |Run(net, evs).nodes|
    requires c.frame.Single? && c.frame.dest == d && c.forwards > 0
    ensures var now := Run(net, evs);
      var n, out := now.nodes[c.dst], Receive(now.nodes[c.dst], c.src, c.frame);
      var echo := c.dst != o && !(c.frame.isProof && d in n.awaited) && d in n.paths && n.paths[d].via == c.src;
      && (out == Nothing(n) <==> echo)
      && (echo ==> Knows(now, d, o, c.src) && Rank(now, d, o, c.src) + 2 <= c.last)
      && (!echo ==>
          || |out.node.consumed| == |n.consumed| + 1
          || (c.dst != o && d in n.paths && out == Outcome(n, [Send(n.paths[d].via, Hopped(c.frame))])))
  {
    FreshDescends(net, d, o);
    RunDescends(net, d, o, evs);
    var now := Run(net, evs);
    assert CopyOk(now, d, o, c) && PathOk(now, d, o, c.dst);
  }

  // ----- a packet overtaken by a better route -----

  function Idle(neighbours: seq<nat>, owned: set<Hash>): Node {
    Node(neighbours, owned, {}, {}, map[], map[], [])
  }

  /** A ring 0-1-2-3-0 with 4 attached to 3; node 0 owns destination 7. */
  function RingOfFour(): Net {
    Net([Idle([1, 3], {7}), Idle([0, 2], {}), Idle([1, 3], {}), Idle([2, 0, 4], {}), Idle([3], {})], {})
  }

  function Heard(n: Node, hops: nat, via: nat): Node {
    n.(paths := n.paths[7 := Path(hops, via, Announce(7, hops, true))])
  }

  lemma OriginateStep(net: Net, i: nat, f: Frame, dst: nat)
    requires i < |net.nodes| && MayOriginate(net.nodes[i], f) && dst in net.nodes[i].neighbours
    ensures var now := Step(net, Originate(i, f));
      now.nodes == net.nodes && net.flying <= now.flying && Copy(i, dst, f, 0, 0, 0) in now.flying
  {
    var k :| 0 <= k < |net.nodes[i].neighbours| && net.nodes[i].neighbours[k] == dst;
    assert ToAll(net.nodes[i].neighbours, f)[k] == Send(dst, f);
  }

  /** An announce at least as near as the best known: kept, and passed to `dst`. */
  lemma AnnounceStep(net: Net, c: Copy, dst: nat)
    requires c in net.flying && c.dst < |net.nodes| && c.frame == Announce(7, c.frame.hops, true) && c.frame.hops < 255
    requires 7 in net.nodes[c.dst].paths ==> c.frame.hops + 1 <= net.nodes[c.dst].paths[7].hops
    requires dst in net.nodes[c.dst].neighbours && dst != c.src
    ensures var now, h := Step(net, Deliver(c)), Hops(net.nodes[c.dst], 7);
      && now.nodes == net.nodes[c.dst := Heard(net.nodes[c.dst], c.frame.hops + 1, c.src)] && net.flying <= now.flying
      && Copy(c.dst, dst, Announce(7, c.frame.hops + 1, true), c.forwards + 1, if c.forwards == 0 then h else c.budget, h) in now.flying
  {
    assert Send(dst, Hopped(c.frame)) in ToAllExcept(net.nodes[c.dst].neighbours, c.src, Hopped(c.frame));
  }

  lemma {:induction false} RunSnoc(net: Net, evs: seq<Event>, ev: Event)
    ensures Run(net, evs + [ev]) == Step(Run(net, evs), ev)
    decreases |evs|
  {
    if evs == [] {
      assert [ev][1..] == [];
    } else {
      assert (evs + [ev])[0] == evs[0] && (evs + [ev])[1..] == evs[1..] + [ev];
      RunSnoc(Step(net, evs[0]), evs[1..], ev);
    }
  }

  /** One more event of a run. */
  lemma Extend(net: Net, evs: seq<Event>, ev: Event) returns (evs': seq<Event>)
    requires NoWrap(ev) && forall e | e in evs :: NoWrap(e)
    ensures evs' == evs + [ev] && Run(net, evs') == Step(Run(net, evs), ev)
    ensures forall e | e in evs' :: NoWrap(e)
  {
    evs' := evs + [ev];
    RunSnoc(net, evs, ev);
  }

  /** The owner announces and node 1 passes it on. */
  lemma AnnounceStarts() returns (evs: seq<Event>)
    ensures forall e | e in evs :: NoWrap(e)
    ensures var now := Run(RingOfFour(), evs);
      && Copy(0, 3, Announce(7, 0, true), 0, 0, 0) in now.flying && Copy(1, 2, Announce(7, 1, true), 1, 0, 0) in now.flying
      && |now.nodes| == 5 && now.nodes[2..] == RingOfFour().nodes[2..]
  {
    var net := RingOfFour();
    var announce := Announce(7, 0, true);
    OriginateStep(net, 0, announce, 1);
    OriginateStep(net, 0, announce, 3);
    evs := Extend(net, [], Originate(0, announce));
    var first := Copy(0, 1, announce, 0, 0, 0);
    AnnounceStep(Run(net, evs), first, 2);
    evs := Extend(net, evs, Deliver(first));
  }

  /** It reaches 3 over 2 while its direct copy is still under way. */
  lemma LongWayRound() returns (evs: seq<Event>)
    ensures forall e | e in evs :: NoWrap(e)
    ensures var now := Run(RingOfFour(), evs);
      && Copy(0, 3, Announce(7, 0, true), 0, 0, 0) in now.flying
      && |now.nodes| == 5 && now.nodes[4] == Idle([3], {})
      && now.nodes[2] == Heard(Idle([1, 3], {}), 2, 1) && now.nodes[3] == Heard(Idle([2, 0, 4], {}), 3, 2)
  {
    var net := RingOfFour();
    evs := AnnounceStarts();
    var now := Run(net, evs);
    assert now.nodes[2] == now.nodes[2..][0] && now.nodes[3] == now.nodes[2..][1] && now.nodes[4] == now.nodes[2..][2];
    var second := Copy(1, 2, Announce(7, 1, true), 1, 0, 0);
    AnnounceStep(now, second, 3);
    evs := Extend(net, evs, Deliver(second));
    var third := Copy(2, 3, Announce(7, 2, true), 2, 0, 0);
    AnnounceStep(Run(net, evs), third, 4);
    evs := Extend(net, evs, Deliver(third));
  }

  /** Node 3 sends node 4's packet the long way. */
  lemma PacketLeaves(net: Net, before: seq<Event>) returns (evs: seq<Event>)
    requires forall e | e in before :: NoWrap(e)
    requires var now := Run(net, before);
      |now.nodes| == 5 && now.nodes[4] == Idle([3], {}) && now.nodes[3] == Heard(Idle([2, 0, 4], {}), 3, 2)
    ensures forall e | e in evs :: NoWrap(e)
    ensures Run(net, evs).nodes == Run(net, before).nodes && Run(net, before).flying <= Run(net, evs).flying
    ensures Copy(3, 2, Single(7, 1, false), 1, 3, 3) in Run(net, evs).flying
  {
    OriginateStep(Run(net, before), 4, Single(7, 0, false), 3);
    evs := Extend(net, before, Originate(4, Single(7, 0, false)));
    var now := Run(net, evs);
    var c := Copy(4, 3, Single(7, 0, false), 0, 0, 0);
    assert Receive(now.nodes[3], 4, c.frame) == Outcome(now.nodes[3], [Send(2, Single(7, 1, false))]);
    assert Send(2, Single(7, 1, false)) in [Send(2, Single(7, 1, false))];
    evs := Extend(net, evs, Deliver(c));
  }

  /** The direct copy arrives at 3, and 2 hears of it. */
  lemma ShortCutHeard(net: Net, before: seq<Event>) returns (evs: seq<Event>)
    requires forall e | e in before :: NoWrap(e)
    requires var now := Run(net, before);
      && |now.nodes| == 5 && Copy(0, 3, Announce(7, 0, true), 0, 0, 0) in now.flying
      && now.nodes[2] == Heard(Idle([1, 3], {}), 2, 1) && now.nodes[3] == Heard(Idle([2, 0, 4], {}), 3, 2)
    ensures forall e | e in evs :: NoWrap(e)
    ensures var now := Run(net, evs);
      && |now.nodes| == 5 && Run(net, before).flying <= now.flying
      && now.nodes[2].links == {} && 7 !in now.nodes[2].owned && now.nodes[2].awaited == {}
      && 7 in now.nodes[2].paths && now.nodes[2].paths[7].via == 3
  {
    var direct := Copy(0, 3, Announce(7, 0, true), 0, 0, 0);
    AnnounceStep(Run(net, before), direct, 2);
    evs := Extend(net, before, Deliver(direct));
    var c := Copy(3, 2, Announce(7, 1, true), 1, 3, 3);
    AnnounceStep(Run(net, evs), c, 1);
    evs := Extend(net, evs, Deliver(c));
  }

  /** The echo check can drop a packet that only ever followed entries: on a ring
      of four, the hop count of its forwarder fell from 3 to 1 behind it. */
  lemma OvertakenPacketIsDropped() returns (evs: seq<Event>)
    ensures Fresh(RingOfFour(), 7, 0) && forall ev | ev in evs :: NoWrap(ev)
    ensures var now := Run(RingOfFour(), evs);
      var c := Copy(3, 2, Single(7, 1, false), 1, 3, 3);
      |now.nodes| == 5 && c in now.flying && Receive(now.nodes[2], 3, c.frame) == Nothing(now.nodes[2])
  {
    evs := LongWayRound();
    evs := PacketLeaves(RingOfFour(), evs);
    evs := ShortCutHeard(RingOfFour(), evs);
  }
}
