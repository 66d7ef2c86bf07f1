/** One Reticulum node: its path table, its link relay table and what it does
    with a packet from a neighbour. Neighbours are numbered; a number stands for
    an interface together with the peer behind it. */
module MeshNode {

  /** Destination hashes, link ids and packet hashes are only compared. */
  type Hash = nat

  datatype Frame =
    | Announce(dest: Hash, hops: nat, authentic: bool)
    | PathRequest(dest: Hash, hops: nat)
    | Single(dest: Hash, hops: nat, isProof: bool)
    | LinkRequest(dest: Hash, hops: nat, linkId: Hash)
    | LinkTraffic(dest: Hash, hops: nat, isClose: bool)

  /** The best announce heard for a destination, as it was passed on. */
  datatype Path = Path(hops: nat, via: nat, packet: Frame)

  /** The two neighbours a link is relayed between. */
  datatype Relay = Relay(a: nat, b: nat)

  /** `consumed` lists the frames handed to local destinations and links. */
  datatype Node = Node(neighbours: seq<nat>, owned: set<Hash>, awaited: set<Hash>, links: set<Hash>,
                       paths: map<Hash, Path>, relays: map<Hash, Relay>, consumed: seq<Frame>)

  datatype Send = Send(dst: nat, frame: Frame)

  datatype Outcome = Outcome(node: Node, sends: seq<Send>)

  /** Every packet gains a hop on receipt; the field is one octet. */
  function Hopped(f: Frame): Frame { f.(hops := (f.hops + 1) % 256) }

  function ToAll(neighbours: seq<nat>, f: Frame): seq<Send> {
    seq(|neighbours|, k requires 0 <= k < |neighbours| => Send(neighbours[k], f))
  }

  function ToAllExcept(neighbours: seq<nat>, except: nat, f: Frame): (sends: seq<Send>)
    ensures forall s :: s in sends <==> s.dst in neighbours && s.dst != except && s.frame == f
  {
    if neighbours == [] then []
    else (if neighbours[0] == except then [] else [Send(neighbours[0], f)]) + ToAllExcept(neighbours[1..], except, f)
  }

  function Nothing(n: Node): Outcome { Outcome(n, []) }

  function Consume(n: Node, f: Frame): Outcome { Outcome(n.(consumed := n.consumed + [f]), []) }

  /** Keep the announce if it is at least as near as the best so far, and flood it on. */
  function OnAnnounce(n: Node, from: nat, f: Frame): Outcome
    requires f.Announce?
  {
    var better := f.dest !in n.paths || f.hops <= n.paths[f.dest].hops;
    Outcome(if better then n.(paths := n.paths[f.dest := Path(f.hops, from, f)]) else n, ToAllExcept(n.neighbours, from, f))
  }

  /** Pass a packet to the next hop, unless that is where it came from. */
  function Forward(n: Node, from: nat, f: Frame): Outcome {
    if f.dest in n.paths && n.paths[f.dest].via != from then Outcome(n, [Send(n.paths[f.dest].via, f)]) else Nothing(n)
  }

  /** Pass a link request on and remember its two neighbours. */
  function ForwardLinkRequest(n: Node, from: nat, f: Frame): Outcome
    requires f.LinkRequest?
  {
    var o := Forward(n, from, f);
    if o.sends == [] then o
    else o.(node := n.(relays := n.relays[f.linkId := Relay(from, n.paths[f.dest].via)]))
  }

  /** Pass link traffic to the other remembered neighbour; a close erases the entry. */
  function ForwardLinkTraffic(n: Node, from: nat, f: Frame): Outcome
    requires f.LinkTraffic?
  {
    if f.dest !in n.relays then Nothing(n)
    else
      var r := n.relays[f.dest];
      if from != r.a && from != r.b then Nothing(n)
      else Outcome(if f.isClose then n.(relays := n.relays - {f.dest}) else n, [Send(if from == r.a then r.b else r.a, f)])
  }

  /** The owner answers a link request with a proof, to every neighbour. */
  function AcceptLink(n: Node, f: Frame): Outcome
    requires f.LinkRequest?
  {
    Outcome(n.(links := n.links + {f.linkId}, consumed := n.consumed + [f]), ToAll(n.neighbours, LinkTraffic(f.linkId, 0, false)))
  }

  /** Our own destination is announced afresh, a known one from the cache. */
  function AnswerPathRequest(n: Node, dest: Hash): Outcome {
    if dest in n.owned then Outcome(n, ToAll(n.neighbours, Announce(dest, 0, true)))
    else if dest in n.paths then Outcome(n, ToAll(n.neighbours, n.paths[dest].packet))
    else Nothing(n)
  }

  function Receive(n: Node, from: nat, received: Frame): Outcome {
    var f := Hopped(received);
    match f
    case Announce(_, _, authentic) => if authentic then OnAnnounce(n, from, f) else Nothing(n)
    case LinkRequest(dest, _, _) => if dest in n.owned then AcceptLink(n, f) else ForwardLinkRequest(n, from, f)
    case LinkTraffic(dest, _, _) => if dest in n.links then Consume(n, f) else ForwardLinkTraffic(n, from, f)
    case PathRequest(dest, _) => AnswerPathRequest(n, dest)
    case Single(dest, _, isProof) =>
      if (isProof && dest in n.awaited) || dest in n.owned then Consume(n, f) else Forward(n, from, f)
  }
}

/** The node as the object it is: tables updated in place, packets sent one by one. */
module Reticulum {
  import opened MeshNode

  lemma {:induction false} ToAllExceptAppend(ns: seq<nat>, last: nat, from: nat, f: Frame)
    ensures ToAllExcept(ns + [last], from, f) == ToAllExcept(ns, from, f) + (if last == from then [] else [Send(last, f)])
  {
    if ns == [] {
      assert [last][1..] == [];
    } else {
      assert (ns + [last])[1..] == ns[1..] + [last];
      ToAllExceptAppend(ns[1..], last, from, f);
    }
  }

  lemma OneMoreNeighbour(ns: seq<nat>, i: nat, from: nat, f: Frame)
    requires i < |ns|
    ensures ToAllExcept(ns[..i + 1], from, f) == ToAllExcept(ns[..i], from, f) + (if ns[i] == from then [] else [Send(ns[i], f)])
  {
    assert ns[..i + 1] == ns[..i] + [ns[i]];
    ToAllExceptAppend(ns[..i], ns[i], from, f);
  }

  class Reticulum {
    const neighbours: seq<nat>
    var destinations: set<Hash>
    var pendingProofs: set<Hash>
    var links: set<Hash>
    var pathTable: map<Hash, Path>
    var linkTable: map<Hash, Relay>
    var consumed: seq<Frame>
    /** Everything sent so far. */
    var outbox: seq<Send>

    ghost function State(): Node
      reads this
    {
      Node(neighbours, destinations, pendingProofs, links, pathTable, linkTable, consumed)
    }

    constructor (neighbours: seq<nat>)
      ensures State() == Node(neighbours, {}, {}, {}, map[], map[], []) && outbox == []
    {
      this.neighbours := neighbours;
      destinations, pendingProofs, links, pathTable, linkTable, consumed, outbox := {}, {}, {}, map[], map[], [], [];
    }

    /** A packet arrives from a neighbour. */
    method OnPacketReceived(data: Frame, from: nat)
      modifies this
      ensures State() == Receive(old(State()), from, data).node
      ensures outbox == old(outbox) + Receive(old(State()), from, data).sends
    {
      var packet := data.(hops := (data.hops + 1) % 256);
      match packet
      case Announce(dest, hops, authentic) =>
        if authentic {
          if dest !in pathTable || hops <= pathTable[dest].hops {
            pathTable := pathTable[dest := Path(hops, from, packet)];
          }
          BroadcastExcept(packet, from);
        }
      case LinkRequest(dest, hops, linkId) =>
        if dest in destinations {
          links := links + {linkId};
          consumed := consumed + [packet];
          SendData(LinkTraffic(linkId, 0, false));
        } else if dest in pathTable && pathTable[dest].via != from {
          linkTable := linkTable[linkId := Relay(from, pathTable[dest].via)];
          outbox := outbox + [Send(pathTable[dest].via, packet)];
        }
      case LinkTraffic(dest, hops, isClose) =>
        if dest in links {
          consumed := consumed + [packet];
        } else {
          RelayLinkTraffic(packet, from);
        }
      case PathRequest(dest, hops) =>
        if dest in destinations {
          SendData(Announce(dest, 0, true));
        } else if dest in pathTable {
          SendData(pathTable[dest].packet);
        }
      case Single(dest, hops, isProof) =>
        if (isProof && dest in pendingProofs) || dest in destinations {
          consumed := consumed + [packet];
        } else if dest in pathTable && pathTable[dest].via != from {
          outbox := outbox + [Send(pathTable[dest].via, packet)];
        }
    }

    method RelayLinkTraffic(packet: Frame, from: nat)
      requires packet.LinkTraffic?
      modifies this`linkTable, this`outbox
      ensures State() == ForwardLinkTraffic(old(State()), from, packet).node
      ensures outbox == old(outbox) + ForwardLinkTraffic(old(State()), from, packet).sends
    {
      if packet.dest !in linkTable { return; }
      var entry := linkTable[packet.dest];
      if entry.a == from {
        outbox := outbox + [Send(entry.b, packet)];
      } else if entry.b == from {
        outbox := outbox + [Send(entry.a, packet)];
      } else {
        return;
      }
      if packet.isClose { linkTable := linkTable - {packet.dest}; }
    }

    method SendData(packet: Frame)
      modifies this`outbox
      ensures outbox == old(outbox) + ToAll(neighbours, packet)
    {
      for i := 0 to |neighbours|
        invariant outbox == old(outbox) + ToAll(neighbours, packet)[..i]
      {
        outbox := outbox + [Send(neighbours[i], packet)];
      }
    }

    method BroadcastExcept(packet: Frame, from: nat)
      modifies this`outbox
      ensures outbox == old(outbox) + ToAllExcept(neighbours, from, packet)
    {
      ghost var sent: seq<Send> := [];
      for i := 0 to |neighbours|
        invariant outbox == old(outbox) + sent && sent == ToAllExcept(neighbours[..i], from, packet)
      {
        OneMoreNeighbour(neighbours, i, from, packet);
        if neighbours[i] != from {
          outbox := outbox + [Send(neighbours[i], packet)];
          sent := sent + [Send(neighbours[i], packet)];
        }
      }
      assert neighbours[..|neighbours|] == neighbours;
    }
  }
}
