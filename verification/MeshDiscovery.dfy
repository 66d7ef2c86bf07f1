/** How nodes come to know a destination: an announce taken is kept and passed on, a
    path request is answered, and so entries can spread along any chain of links. */
module MeshDiscovery {
  import opened MeshNode
  import opened MeshRouting

  /** A copy of `f` is under way from one node to another. */
  ghost predicate OnTheWay(net: Net, src: nat, dst: nat, f: Frame) {
    exists c :: c in net.flying && c.src == src && c.dst == dst && c.frame == f
  }

  lemma Launched(net: Net, c: Copy, s: Send)
    requires c in net.flying && c.dst < |net.nodes| && s in Receive(net.nodes[c.dst], c.src, c.frame).sends
    ensures OnTheWay(Step(net, Deliver(c)), c.dst, s.dst, s.frame)
  {
    var n := net.nodes[c.dst];
    var h := Hops(n, c.frame.dest);
    assert Copy(c.dst, s.dst, s.frame, c.forwards + 1, if c.forwards == 0 then h else c.budget, h) in Step(net, Deliver(c)).flying;
  }

  lemma AllHear(neighbours: seq<nat>, f: Frame, v: nat)
    requires v in neighbours
    ensures Send(v, f) in ToAll(neighbours, f)
  {
    var k :| 0 <= k < |neighbours| && neighbours[k] == v;
    assert ToAll(neighbours, f)[k] == Send(v, f);
  }

  // ----- one announce, one request -----

  /** What a node makes of an authentic announce that comes `hops` far: it knows the
      destination at most one hop further, through that neighbour if that is nearer
      than what it knew, and every other neighbour is to hear of it one hop further. */
  ghost predicate Heeded(net: Net, net': Net, i: nat, from: nat, d: Hash, hops: nat)
    requires i < |net.nodes| && i < |net'.nodes|
  {
    var n, n' := net.nodes[i], net'.nodes[i];
    && d in n'.paths && n'.paths[d].hops <= hops + 1
    && (d !in n.paths || hops + 1 <= n.paths[d].hops ==> n'.paths[d].hops == hops + 1 && n'.paths[d].via == from)
    && (d in n.paths && n.paths[d].hops < hops + 1 ==> n'.paths[d] == n.paths[d])
    && (forall v | v in n.neighbours && v != from :: OnTheWay(net', i, v, Announce(d, hops + 1, true)))
  }

  lemma AnnounceHeeded(net: Net, c: Copy)
    requires c in net.flying && c.dst < |net.nodes| && c.frame.Announce? && c.frame.authentic && c.frame.hops < 255
    ensures Heeded(net, Step(net, Deliver(c)), c.dst, c.src, c.frame.dest, c.frame.hops)
  {
    var n, f := net.nodes[c.dst], Announce(c.frame.dest, c.frame.hops + 1, true);
    assert Hopped(c.frame) == f;
    forall v | v in n.neighbours && v != c.src ensures OnTheWay(Step(net, Deliver(c)), c.dst, v, f) {
      assert Send(v, f) in ToAllExcept(n.neighbours, c.src, f);
      Launched(net, c, Send(v, f));
    }
  }

  /** In every run, a path request that reaches a node with an entry, or the owner, puts
      an announce at that node's distance on the way to each of its neighbours. */
  lemma RequestAnswered(net: Net, d: Hash, o: nat, evs: seq<Event>, c: Copy, v: nat)
    requires Fresh(net, d, o) && forall ev | ev in evs :: NoWrap(ev)
    requires var now := Run(net, evs);
      && c in now.flying && c.dst < |now.nodes| && c.frame.PathRequest? && c.frame.dest == d
      && Knows(now, d, o, c.dst) && v in now.nodes[c.dst].neighbours
    ensures var now := Run(net, evs);
      OnTheWay(Step(now, Deliver(c)), c.dst, v, Announce(d, Rank(now, d, o, c.dst), true))
  {
    FreshDescends(net, d, o);
    RunDescends(net, d, o, evs);
    AnswerSent(Run(net, evs), d, o, c, v);
  }

  lemma AnswerSent(net: Net, d: Hash, o: nat, c: Copy, v: nat)
    requires Descending(net, d, o) && c in net.flying && c.dst < |net.nodes| && c.frame.PathRequest? && c.frame.dest == d
    requires Knows(net, d, o, c.dst) && v in net.nodes[c.dst].neighbours
    ensures OnTheWay(Step(net, Deliver(c)), c.dst, v, Announce(d, Rank(net, d, o, c.dst), true))
  {
    var n, f := net.nodes[c.dst], Announce(d, Rank(net, d, o, c.dst), true);
    assert CacheOk(n);
    AllHear(n.neighbours, f, v);
    Launched(net, c, Send(v, f));
  }

  /** A node that neither owns nor knows the destination says nothing. */
  lemma UnknownStaysSilent(net: Net, d: Hash, o: nat, c: Copy)
    requires Descending(net, d, o) && c.dst < |net.nodes| && c.frame.PathRequest? && c.frame.dest == d
    requires !Knows(net, d, o, c.dst)
    ensures Receive(net.nodes[c.dst], c.src, c.frame) == Nothing(net.nodes[c.dst])
  {
  }

  // ----- along a chain of links -----

  predicate SameLinks(a: Net, b: Net) {
    |a.nodes| == |b.nodes| && forall i :: 0 <= i < |a.nodes| ==> b.nodes[i].neighbours == a.nodes[i].neighbours
  }

  lemma LinksStay(net: Net, ev: Event)
    ensures SameLinks(net, Step(net, ev))
  {
  }

  /** Each node of the chain but the last has the next one as a neighbour, and the chain
      does not turn straight back. */
  predicate Chain(net: Net, nodes: seq<nat>) {
    && (forall k :: 0 <= k < |nodes| ==> nodes[k] < |net.nodes|)
    && (forall k :: 0 <= k < |nodes| - 1 ==> nodes[k + 1] in net.nodes[nodes[k]].neighbours)
    && (forall k :: 0 <= k < |nodes| - 2 ==> nodes[k + 2] != nodes[k])
  }

  /** Node number `k` of the chain knows the destination at most `k` hops away. */
  ghost predicate Reached(net: Net, d: Hash, o: nat, nodes: seq<nat>, k: nat) {
    k < |nodes| && Knows(net, d, o, nodes[k]) && Rank(net, d, o, nodes[k]) <= k
  }

  lemma StaysReached(a: Net, b: Net, d: Hash, o: nat, nodes: seq<nat>, k: nat)
    requires Reached(a, d, o, nodes, k) && Nearer(a, b, d, o)
    ensures Reached(b, d, o, nodes, k)
  {
  }

  /** One link of the chain. */
  lemma FloodStep(net: Net, d: Hash, o: nat, nodes: seq<nat>, k: nat) returns (c: Copy)
    requires Descending(net, d, o) && Chain(net, nodes) && k + 1 < |nodes| <= 255
    requires OnTheWay(net, nodes[k], nodes[k + 1], Announce(d, k, true))
    ensures NoWrap(Deliver(c))
    ensures var next := Step(net, Deliver(c));
      && Descending(next, d, o) && Nearer(net, next, d, o) && Chain(next, nodes) && Reached(next, d, o, nodes, k + 1)
      && (k + 2 < |nodes| ==> OnTheWay(next, nodes[k + 1], nodes[k + 2], Announce(d, k + 1, true)))
  {
    c :| c in net.flying && c.src == nodes[k] && c.dst == nodes[k + 1] && c.frame == Announce(d, k, true);
    AnnounceHeeded(net, c);
    StepDescends(net, d, o, Deliver(c));
    LinksStay(net, Deliver(c));
  }

  lemma NearerStill(a: Net, b: Net, c: Net, d: Hash, o: nat)
    requires Nearer(a, b, d, o) && Nearer(b, c, d, o)
    ensures Nearer(a, c, d, o)
  {
  }

  /** From where an announce is under way, delivering it and what it sets off tells
      everyone further on. */
  lemma {:induction false} FloodOn(net: Net, d: Hash, o: nat, nodes: seq<nat>, k: nat) returns (evs: seq<Event>)
    requires Descending(net, d, o) && Chain(net, nodes) && k + 1 < |nodes| <= 255
    requires OnTheWay(net, nodes[k], nodes[k + 1], Announce(d, k, true))
    ensures forall ev | ev in evs :: NoWrap(ev)
    ensures Nearer(net, Run(net, evs), d, o)
    ensures forall j :: k < j < |nodes| ==> Reached(Run(net, evs), d, o, nodes, j)
    decreases |nodes| - k
  {
    var c := FloodStep(net, d, o, nodes, k);
    var next, rest: seq<Event> := Step(net, Deliver(c)), [];
    if k + 2 < |nodes| {
      rest := FloodOn(next, d, o, nodes, k + 1);
      NearerStill(net, next, Run(next, rest), d, o);
      StaysReached(next, Run(next, rest), d, o, nodes, k + 1);
    }
    evs := [Deliver(c)] + rest;
    assert evs[1..] == rest && Run(net, evs) == Run(next, rest);
  }

  lemma OwnAnnounce(net: Net, d: Hash, o: nat, v: nat)
    requires o < |net.nodes| && d in net.nodes[o].owned && v in net.nodes[o].neighbours
    ensures OnTheWay(Step(net, Originate(o, Announce(d, 0, true))), o, v, Announce(d, 0, true))
  {
    AllHear(net.nodes[o].neighbours, Announce(d, 0, true), v);
    assert Copy(o, v, Announce(d, 0, true), 0, 0, 0) in Step(net, Originate(o, Announce(d, 0, true))).flying;
  }

  /** Whatever has happened so far, an announce can reach every node that a chain of
      links joins to the owner, and then each knows the owner at most as many hops away
      as the chain has links. */
  lemma AnnounceReaches(net: Net, d: Hash, o: nat, evs: seq<Event>, nodes: seq<nat>) returns (more: seq<Event>)
    requires Fresh(net, d, o) && forall ev | ev in evs :: NoWrap(ev)
    requires Chain(Run(net, evs), nodes) && 0 < |nodes| <= 255 && nodes[0] == o
    ensures forall ev | ev in more :: NoWrap(ev)
    ensures forall k :: 0 <= k < |nodes| ==> Reached(Run(Run(net, evs), more), d, o, nodes, k)
  {
    FreshDescends(net, d, o);
    RunDescends(net, d, o, evs);
    var now := Run(net, evs);
    var ev := Originate(o, Announce(d, 0, true));
    var next := Step(now, ev);
    StepDescends(now, d, o, ev);
    var rest: seq<Event> := [];
    if |nodes| > 1 {
      OwnAnnounce(now, d, o, nodes[1]);
      LinksStay(now, ev);
      rest := FloodOn(next, d, o, nodes, 0);
    }
    more := [ev] + rest;
    assert more[1..] == rest && Run(now, more) == Run(next, rest);
  }

  /** And a node can find out from a neighbour: its path request, the answer, and it
      knows the destination at most one hop further than the neighbour did. */
  lemma RequestFinds(net: Net, d: Hash, o: nat, evs: seq<Event>, i: nat, j: nat) returns (more: seq<Event>)
    requires Fresh(net, d, o) && forall ev | ev in evs :: NoWrap(ev)
    requires var now := Run(net, evs);
      && i < |now.nodes| && j < |now.nodes| && j in now.nodes[i].neighbours && i in now.nodes[j].neighbours
      && Knows(now, d, o, j) && Rank(now, d, o, j) < 255
    ensures forall ev | ev in more :: NoWrap(ev)
    ensures var now, after := Run(net, evs), Run(Run(net, evs), more);
      Knows(after, d, o, i) && Rank(after, d, o, i) <= Rank(now, d, o, j) + 1
  {
    FreshDescends(net, d, o);
    RunDescends(net, d, o, evs);
    var now := Run(net, evs);
    var ask := Originate(i, PathRequest(d, 0));
    var asked := Step(now, ask);
    var c := Copy(i, j, PathRequest(d, 0), 0, 0, 0);
    AllHear(now.nodes[i].neighbours, PathRequest(d, 0), j);
    assert c in asked.flying;
    StepDescends(now, d, o, ask);
    AnswerSent(asked, d, o, c, i);
    var answered := Step(asked, Deliver(c));
    StepDescends(asked, d, o, Deliver(c));
    var a :| a in answered.flying && a.src == j && a.dst == i && a.frame == Announce(d, Rank(asked, d, o, j), true);
    AnnounceHeeded(answered, a);
    more := [ask, Deliver(c), Deliver(a)];
    ThreeSteps(now, ask, Deliver(c), Deliver(a));
  }

  lemma ThreeSteps(net: Net, a: Event, b: Event, c: Event)
    ensures Run(net, [a, b, c]) == Step(Step(Step(net, a), b), c)
  {
    assert [a, b, c][1..] == [b, c] && [b, c][1..] == [c] && [c][1..] == [];
    var one, two := Step(net, a), Step(Step(net, a), b);
    assert Run(two, [c]) == Run(Step(two, c), []);
    assert Run(one, [b, c]) == Run(two, [c]);
  }
}
