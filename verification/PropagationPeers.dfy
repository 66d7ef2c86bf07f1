/** A node and one of its peers over any sequence of syncs, uploads and purges. */
module PropagationPeers {
  import opened Bytes
  import opened PropagationStore
  import opened PropagationSync

  /** `uploaded` lists the keys of the uploads to the peer that were confirmed,
      oldest first. */
  datatype Pair = Pair(node: Store, peer: Store, handled: set<Key>, uploaded: seq<Key>)

  /** During a sync others may upload to and purge from either side before the wanted
      messages are sent; a failed upload may have arrived, but leaves them unhandled. */
  datatype Event =
    | AtNode(change: Change)
    | AtPeer(change: Change)
    | SyncOnce(toNode: seq<Change>, toPeer: seq<Change>)
    | SyncFails(toNode: seq<Change>, toPeer: seq<Change>, arrived: bool)

  /** Those of the keys that are stored. */
  function Held(store: Store, keys: seq<Key>): (held: seq<Key>)
    ensures forall k :: k in held <==> k in keys && Has(store, k)
  {
    if keys == [] then []
    else
      assert keys == [keys[0]] + keys[1..];
      (if Has(store, keys[0]) then [keys[0]] else []) + Held(store, keys[1..])
  }

  /** `c` is the node's, `d` the peer's. */
  function Step(c: Crypto, d: Crypto, s: Pair, ev: Event): Pair {
    match ev
    case AtNode(change) => s.(node := Changed(c, s.node, [change]))
    case AtPeer(change) => s.(peer := Changed(d, s.peer, [change]))
    case SyncOnce(toNode, toPeer) =>
      var nodeLater, peerLater := Changed(c, s.node, toNode), Changed(d, s.peer, toPeer);
      var r := PeerSync(d, s.node, nodeLater, s.peer, peerLater, s.handled);
      Pair(nodeLater, r.peer, r.handled, s.uploaded + Held(nodeLater, r.wanted))
    case SyncFails(toNode, toPeer, arrived) =>
      var nodeLater, peerLater := Changed(c, s.node, toNode), Changed(d, s.peer, toPeer);
      var r := PeerSync(d, s.node, nodeLater, s.peer, peerLater, s.handled);
      Pair(nodeLater, if arrived then r.peer else peerLater, s.handled + (Elements(r.offered) - Elements(r.wanted)), s.uploaded)
  }

  function Run(c: Crypto, d: Crypto, s: Pair, evs: seq<Event>): Pair
    decreases |evs|
  {
    if evs == [] then s else Run(c, d, Step(c, d, s, evs[0]), evs[1..])
  }

  predicate NoRepeats(keys: seq<Key>) { forall i, j :: 0 <= i < j < |keys| ==> keys[i] != keys[j] }

  predicate Inv(c: Crypto, d: Crypto, s: Pair) {
    && StoreOk(c, s.node) && StoreOk(d, s.peer)
    && NoRepeats(s.uploaded) && forall k | k in s.uploaded :: k in s.handled
  }

  /** What a store lacks of distinct keys is distinct. */
  lemma {:induction false} LackedNoRepeats(store: Store, offered: seq<Key>)
    requires NoRepeats(offered)
    ensures NoRepeats(Lacked(store, offered))
  {
    if offered != [] {
      LackedNoRepeats(store, offered[1..]);
      var rest := Lacked(store, offered[1..]);
      forall j | 0 <= j < |rest| ensures rest[j] != offered[0] {
        assert rest[j] in offered[1..];
      }
    }
  }

  lemma OfferNoRepeats(c: Crypto, store: Store, handled: set<Key>)
    requires StoreOk(c, store)
    ensures NoRepeats(Unhandled(store, handled))
  {
    var offered := Unhandled(store, handled);
    forall i, j | 0 <= i < j < |offered| ensures offered[i] != offered[j] { OffersAreDistinct(c, store, handled, i, j); }
  }

  lemma {:induction false} CountedOnce(keys: seq<Key>)
    requires NoRepeats(keys)
    ensures |Elements(keys)| == |keys|
  {
    if keys == [] {
      assert Elements(keys) == {};
    } else {
      CountedOnce(keys[1..]);
      assert keys[0] !in Elements(keys[1..]);
      assert Elements(keys) == {keys[0]} + Elements(keys[1..]);
    }
  }

  /** What a sync reports as synced is the number of offered messages the peer
      lacked when it answered. */
  lemma SyncedIsNumberLacked(c: Crypto, node: Store, nodeLater: Store, peer: Store, peerLater: Store, handled: set<Key>)
    requires StoreOk(c, node)
    ensures var s := PeerSync(c, node, nodeLater, peer, peerLater, handled);
      NoRepeats(s.wanted) && |s.wanted| == |set k | k in s.offered && !Has(peer, k)|
  {
    var s := PeerSync(c, node, nodeLater, peer, peerLater, handled);
    OfferNoRepeats(c, node, handled);
    LackedNoRepeats(peer, s.offered);
    CountedOnce(s.wanted);
    assert Elements(s.wanted) == set k | k in s.offered && !Has(peer, k);
  }

  lemma {:induction false} HeldNoRepeats(store: Store, keys: seq<Key>)
    requires NoRepeats(keys)
    ensures NoRepeats(Held(store, keys))
  {
    if keys != [] {
      HeldNoRepeats(store, keys[1..]);
      var rest := Held(store, keys[1..]);
      forall j | 0 <= j < |rest| ensures rest[j] != keys[0] {
        assert rest[j] in keys[1..];
      }
    }
  }

  /** The uploaded keys are new to the log and distinct. */
  lemma LogGrows(c: Crypto, d: Crypto, s: Pair, nodeLater: Store, peerLater: Store)
    requires Inv(c, d, s)
    ensures var r := PeerSync(d, s.node, nodeLater, s.peer, peerLater, s.handled);
      var log := s.uploaded + Held(nodeLater, r.wanted);
      NoRepeats(log) && forall k | k in log :: k in r.handled
  {
    var r := PeerSync(d, s.node, nodeLater, s.peer, peerLater, s.handled);
    var more := Held(nodeLater, r.wanted);
    OfferNoRepeats(c, s.node, s.handled);
    LackedNoRepeats(s.peer, r.offered);
    HeldNoRepeats(nodeLater, r.wanted);
    forall k | k in more ensures k in r.offered && k !in s.handled {}
    var log := s.uploaded + more;
    forall i, j | 0 <= i < j < |log| ensures log[i] != log[j] {
      if i < |s.uploaded| <= j {
        assert log[i] in s.uploaded && log[j] == more[j - |s.uploaded|];
      }
    }
  }

  lemma StepInv(c: Crypto, d: Crypto, s: Pair, ev: Event)
    requires Inv(c, d, s)
    ensures Inv(c, d, Step(c, d, s, ev)) && s.uploaded <= Step(c, d, s, ev).uploaded
  {
    match ev
    case AtNode(change) => AlwaysFiledByHash(c, [change], s.node);
    case AtPeer(change) => AlwaysFiledByHash(d, [change], s.peer);
    case SyncOnce(toNode, toPeer) => SyncKeeps(c, d, s, toNode, toPeer);
    case SyncFails(toNode, toPeer, _) => SyncKeeps(c, d, s, toNode, toPeer);
  }

  /** Through a sync both stores stay filed by hash, whether or not the upload arrives. */
  lemma SyncKeeps(c: Crypto, d: Crypto, s: Pair, toNode: seq<Change>, toPeer: seq<Change>)
    requires Inv(c, d, s)
    ensures var nodeLater, peerLater := Changed(c, s.node, toNode), Changed(d, s.peer, toPeer);
      var r := PeerSync(d, s.node, nodeLater, s.peer, peerLater, s.handled);
      var log := s.uploaded + Held(nodeLater, r.wanted);
      && StoreOk(c, nodeLater) && StoreOk(d, peerLater) && StoreOk(d, r.peer)
      && NoRepeats(log) && forall k | k in log :: k in r.handled
  {
    var nodeLater, peerLater := Changed(c, s.node, toNode), Changed(d, s.peer, toPeer);
    AlwaysFiledByHash(c, toNode, s.node);
    AlwaysFiledByHash(d, toPeer, s.peer);
    LogGrows(c, d, s, nodeLater, peerLater);
    var r := PeerSync(d, s.node, nodeLater, s.peer, peerLater, s.handled);
    AdmitAllKeeps(d, peerLater, Parcels(nodeLater, r.wanted));
  }

  lemma {:induction false} RunInv(c: Crypto, d: Crypto, s: Pair, evs: seq<Event>)
    requires Inv(c, d, s)
    ensures Inv(c, d, Run(c, d, s, evs)) && s.uploaded <= Run(c, d, s, evs).uploaded
    decreases |evs|
  {
    if evs != [] {
      StepInv(c, d, s, evs[0]);
      RunInv(c, d, Step(c, d, s, evs[0]), evs[1..]);
    }
  }

  /** Once an upload to a peer was confirmed, that message is never offered or uploaded
      to it again: over any syncs, whatever is uploaded to and purged from either side
      in between and whichever syncs fail. */
  lemma UploadedOnce(c: Crypto, d: Crypto, evs: seq<Event>)
    ensures var s := Run(c, d, Pair([], [], {}, []), evs);
      NoRepeats(s.uploaded) && forall k | k in s.uploaded :: k !in Unhandled(s.node, s.handled)
  {
    RunInv(c, d, Pair([], [], {}, []), evs);
  }
}
