/** The propagation node object: its store, updated in place by uploads, client
    requests and peer syncs. */
module PropagationNode {
  import opened Bytes
  import opened PropagationStore
  import opened PropagationSync
  import Peers = PropagationPeers

  datatype GetReply =
    | Refused
    | Listed(list: seq<(Key, nat)>)
    | Keys(keys: seq<Key>)
    | Envelopes(envelopes: seq<seq<byte>>)

  datatype SyncResult = Synced(offered: nat, synced: nat) | Rejected

  lemma AdmitOneMore(c: Crypto, store: Store, entries: seq<Option<seq<byte>>>, i: nat)
    requires i < |entries|
    ensures AdmitAll(c, store, entries[i..]) == AdmitAll(c, Admit(c, store, entries[i]), entries[i + 1..])
  {
    assert entries[i..][0] == entries[i] && entries[i..][1..] == entries[i + 1..];
  }

  lemma PurgeOneMore(store: Store, owner: seq<byte>, haves: seq<Key>, i: nat)
    requires i < |haves|
    ensures Purged(store, owner, haves[i..])
         == Purged(if Owned(store, owner, haves[i]) then Delete(store, haves[i]) else store, owner, haves[i + 1..])
  {
    assert haves[i..][0] == haves[i] && haves[i..][1..] == haves[i + 1..];
  }

  lemma ServeOneMore(store: Store, owner: seq<byte>, wants: seq<Key>, i: nat, done: seq<seq<byte>>)
    requires i < |wants| && done + Served(store, owner, wants[i..]) == Served(store, owner, wants)
    ensures done + (if Owned(store, owner, wants[i]) then [Get(store, wants[i]).envelope] else [])
          + Served(store, owner, wants[i + 1..]) == Served(store, owner, wants)
  {
    assert wants[i..][0] == wants[i] && wants[i..][1..] == wants[i + 1..];
    var one := if Owned(store, owner, wants[i]) then [Get(store, wants[i]).envelope] else [];
    assert done + (one + Served(store, owner, wants[i + 1..])) == done + one + Served(store, owner, wants[i + 1..]);
  }

  datatype Outcome = Outcome(result: SyncResult, peer: Store, handled: set<Key>)

  function HandledBy(handledMessages: map<nat, set<Key>>, peerId: nat): set<Key> {
    if peerId in handledMessages then handledMessages[peerId] else {}
  }

  /** A whole sync with nothing in between. */
  function SyncOutcome(c: Crypto, node: Store, peer: Store, handled: set<Key>, keyValid: bool): Outcome {
    var s := PeerSync(c, node, node, peer, peer, handled);
    if s.offered == [] then Outcome(Synced(0, 0), peer, handled)
    else if !keyValid then Outcome(Rejected, peer, handled)
    else Outcome(Synced(|s.offered|, |s.wanted|), s.peer, s.handled)
  }

  /** The stored keys this peer has not been seen to have. */
  function Unseen(store: Store, handled: set<Key>): set<Key> { set item | item in store && item.key !in handled :: item.key }

  /** What a sync must do, whatever it exchanges: unless its key is rejected, which
      changes nothing, the peer gains of what is not handled exactly the messages whose
      stamps it accepts; the result counts what was not handled and what of it the peer
      lacked; and all of it is handled. */
  ghost predicate OfferSettled(c: Crypto, node: Store, before: Store, after: Store, handled: set<Key>, handled': set<Key>, result: SyncResult) {
    var unseen := Unseen(node, handled);
    match result
    case Rejected => after == before && handled' == handled && unseen != {}
    case Synced(offered, synced) =>
      && offered == |unseen| && synced == |set k | k in unseen && !Has(before, k)|
      && handled' == handled + unseen
      && before <= after && (forall k :: Has(after, k) <==> Has(before, k) || (k in unseen && Stamped(c, node, k)))
  }

  /** Both stores file messages by the same hash. */
  ghost predicate FiledAlike(c: Crypto, node: Store, peer: Store) { StoreOk(c, node) && StoreOk(c, peer) }

  lemma OfferedIsUnseen(c: Crypto, node: Store, handled: set<Key>)
    requires StoreOk(c, node)
    ensures Elements(Unhandled(node, handled)) == Unseen(node, handled)
    ensures |Unhandled(node, handled)| == |Unseen(node, handled)|
  {
    Peers.OfferNoRepeats(c, node, handled);
    Peers.CountedOnce(Unhandled(node, handled));
  }

  lemma OutcomeIsDone(c: Crypto, node: Store, peer: Store, handled: set<Key>, keyValid: bool)
    requires FiledAlike(c, node, peer)
    ensures var o := SyncOutcome(c, node, peer, handled, keyValid);
      && OfferSettled(c, node, peer, o.peer, handled, o.handled, o.result)
      && (o.result == Rejected <==> !keyValid && Unseen(node, handled) != {})
  {
    var s := PeerSync(c, node, node, peer, peer, handled);
    var unseen := Unseen(node, handled);
    OfferedIsUnseen(c, node, handled);
    PeerSyncConverges(c, node, node, peer, peer, handled);
    Peers.SyncedIsNumberLacked(c, node, node, peer, peer, handled);
    if s.offered == [] {
      assert unseen == {};
      assert (set k | k in unseen && !Has(peer, k)) == {};
      assert handled + unseen == handled;
    } else {
      assert s.offered[0] in Elements(s.offered);
      assert (set k | k in unseen && !Has(peer, k)) == (set k | k in s.offered && !Has(peer, k));
    }
  }

  lemma RecordedTwice(m: map<nat, set<Key>>, first: map<nat, set<Key>>, now: map<nat, set<Key>>, id: nat)
    requires id in first && id in now && first == (if id in m then m else m[id := {}]) && now == first[id := now[id]]
    ensures now == m[id := now[id]]
  {
  }

  lemma HeldOrWanted(unhandled: seq<Key>, wanted: seq<Key>, handled: set<Key>)
    requires forall k | k in wanted :: k in unhandled
    ensures handled + (Elements(unhandled) - Elements(wanted)) + Elements(wanted) == handled + Elements(unhandled)
  {
  }

  class PropagationNode {
    const crypto: Crypto
    var messages: Store
    /** By peer: the keys it is known to have. */
    var handledMessages: map<nat, set<Key>>

    constructor (crypto: Crypto)
      ensures this.crypto == crypto && messages == [] && handledMessages == map[]
    {
      this.crypto := crypto;
      messages, handledMessages := [], map[];
    }

    /** An uploaded container; None when it is not one. */
    method OnUpload(container: Option<seq<Option<seq<byte>>>>)
      modifies this`messages
      ensures messages == if container.None? then old(messages) else AdmitAll(crypto, old(messages), container.value)
    {
      if container.None? { return; }
      var entries := container.value;
      assert entries[0..] == entries;
      for i := 0 to |entries|
        invariant AdmitAll(crypto, messages, entries[i..]) == AdmitAll(crypto, old(messages), entries)
      {
        AdmitOneMore(crypto, messages, entries, i);
        if entries[i].None? || |entries[i].value| <= ADDRESS_SIZE + STAMP_SIZE { continue; }
        var item := Parcel(crypto, entries[i].value);
        if !crypto.stampValid(item.key, item.stamp) { continue; }
        if !Has(messages, item.key) { messages := messages + [item]; }
      }
    }

    method Purge(owner: seq<byte>, haves: seq<Key>)
      modifies this`messages
      ensures messages == Purged(old(messages), owner, haves)
    {
      assert haves[0..] == haves;
      for i := 0 to |haves|
        invariant Purged(messages, owner, haves[i..]) == Purged(old(messages), owner, haves)
      {
        PurgeOneMore(messages, owner, haves, i);
        if Has(messages, haves[i]) && Get(messages, haves[i]).destination == owner {
          messages := Delete(messages, haves[i]);
        }
      }
    }

    /** A request proved to come from `owner`: list, or fetch and then purge. */
    method OnGetRequest(owner: seq<byte>, wants: Option<seq<Key>>, haves: Option<seq<Key>>) returns (reply: GetReply)
      modifies this`messages
      ensures wants.None? && haves.None? ==> reply == Listed(Listing(old(messages), owner)) && messages == old(messages)
      ensures wants.Some? || haves.Some? ==>
                && reply == Envelopes(if wants.None? then [] else Served(old(messages), owner, wants.value))
                && messages == if haves.None? then old(messages) else Purged(old(messages), owner, haves.value)
    {
      if wants.None? && haves.None? { return Listed(Listing(messages, owner)); }
      var response: seq<seq<byte>> := [];
      if wants.Some? { response := Fetch(owner, wants.value); }
      if haves.Some? { Purge(owner, haves.value); }
      return Envelopes(response);
    }

    method Fetch(owner: seq<byte>, wants: seq<Key>) returns (response: seq<seq<byte>>)
      ensures response == Served(messages, owner, wants)
    {
      response := [];
      assert wants[0..] == wants && [] + Served(messages, owner, wants) == Served(messages, owner, wants);
      for i := 0 to |wants|
        invariant response + Served(messages, owner, wants[i..]) == Served(messages, owner, wants)
      {
        ServeOneMore(messages, owner, wants, i, response);
        if Has(messages, wants[i]) && Get(messages, wants[i]).destination == owner {
          response := response + [Get(messages, wants[i]).envelope];
        } else {
          assert response + [] == response;
        }
      }
      assert response + [] == response;
    }

    /** The response of a limited fetch. */
    method FetchWithin(owner: seq<byte>, wants: seq<Key>, limit: Option<real>) returns (response: seq<seq<byte>>)
      ensures response == ServedWithin(messages, owner, wants, RESPONSE_OVERHEAD, limit)
    {
      response := [];
      var cumulativeSize: nat := RESPONSE_OVERHEAD;
      assert wants[0..] == wants;
      ghost var all := ServedWithin(messages, owner, wants, RESPONSE_OVERHEAD, limit);
      assert [] + all == all;
      for i := 0 to |wants|
        invariant response + ServedWithin(messages, owner, wants[i..], cumulativeSize, limit) == all
      {
        assert wants[i..][0] == wants[i] && wants[i..][1..] == wants[i + 1..];
        if !Has(messages, wants[i]) || Get(messages, wants[i]).destination != owner { continue; }
        var envelope := Get(messages, wants[i]).envelope;
        var nextSize := cumulativeSize + |envelope| + STAMP_SIZE + 16;
        if limit.Some? && nextSize as real > limit.value { continue; }
        ghost var rest := ServedWithin(messages, owner, wants[i + 1..], nextSize, limit);
        assert response + ([envelope] + rest) == response + [envelope] + rest;
        response := response + [envelope];
        cumulativeSize := nextSize;
      }
      assert response + [] == response;
    }

    /** A request over an identified link: list by size, or purge and then fetch
        within the client's limit, given in kilobytes. */
    method OnRealGetRequest(remote: Option<seq<byte>>, wants: Option<seq<Key>>, haves: Option<seq<Key>>, limitKb: Option<real>)
      returns (reply: GetReply)
      modifies this`messages
      ensures remote.None? ==> reply == Refused && messages == old(messages)
      ensures remote.Some? && wants.None? && haves.None? ==>
                reply == Keys(FirstOf(BySize(Listing(old(messages), remote.value)))) && messages == old(messages)
      ensures remote.Some? && (wants.Some? || haves.Some?) ==>
                && messages == (if haves.None? then old(messages) else Purged(old(messages), remote.value, haves.value))
                && reply == Envelopes(if wants.None? then []
                                      else ServedWithin(messages, remote.value, wants.value, RESPONSE_OVERHEAD,
                                                        if limitKb.None? then None else Some(limitKb.value * 1000.0)))
    {
      if remote.None? { return Refused; }
      if wants.None? && haves.None? { return Keys(FirstOf(BySize(Listing(messages, remote.value)))); }
      if haves.Some? { Purge(remote.value, haves.value); }
      var response: seq<seq<byte>> := [];
      if wants.Some? {
        var limit := if limitKb.None? then None else Some(limitKb.value * 1000.0);
        response := FetchWithin(remote.value, wants.value, limit);
      }
      return Envelopes(response);
    }

    /** An offer that is identified and keyed is answered by what the store lacks of
        it: nothing, everything, or the ids in the order and number offered. */
    method OnOfferRequest(identified: bool, keyValid: bool, offered: seq<Key>) returns (reply: OfferReply)
      ensures reply.NoIdentity? <==> !identified
      ensures reply.InvalidKey? <==> identified && !keyValid
      ensures reply.WantNone? <==> identified && keyValid && forall id | id in offered :: Has(messages, id)
      ensures reply.WantAll? <==>
                identified && keyValid && offered != [] && forall id | id in offered :: !Has(messages, id)
      ensures reply.Want? ==> reply.ids == Lacked(messages, offered)
    {
      if !identified { return NoIdentity; }
      if !keyValid { return InvalidKey; }
      var wanted := [];
      for i := 0 to |offered|
        invariant wanted == Lacked(messages, offered[..i])
      {
        assert offered[..i + 1] == offered[..i] + [offered[i]];
        LackedAppend(messages, offered[..i], offered[i]);
        if !Has(messages, offered[i]) { wanted := wanted + [offered[i]]; }
      }
      assert offered[..|offered|] == offered;
      LackedAll(messages, offered);
      if |wanted| == 0 {
        assert forall id | id in offered :: id !in wanted;
        return WantNone;
      }
      assert wanted[0] in wanted;
      if |wanted| == |offered| { return WantAll; }
      return Want(wanted);
    }

    /** The peer has what it did not ask for. */
    method MarkHeld(peerId: nat, unhandled: seq<Key>, wanted: seq<Key>)
      requires peerId in handledMessages
      modifies this`handledMessages
      ensures handledMessages == old(handledMessages)[peerId := old(handledMessages)[peerId] + (Elements(unhandled) - Elements(wanted))]
    {
      ghost var before := handledMessages[peerId];
      for i := 0 to |unhandled|
        invariant peerId in handledMessages && handledMessages == old(handledMessages)[peerId := handledMessages[peerId]]
        invariant before <= handledMessages[peerId] <= before + (Elements(unhandled) - Elements(wanted))
        invariant forall j :: 0 <= j < i && unhandled[j] !in wanted ==> unhandled[j] in handledMessages[peerId]
      {
        if unhandled[i] !in wanted {
          handledMessages := handledMessages[peerId := handledMessages[peerId] + {unhandled[i]}];
        }
      }
      assert handledMessages[peerId] == before + (Elements(unhandled) - Elements(wanted));
    }

    /** What the peer wants of an offer; None when it rejects the peering key. */
    method Offer(peer: PropagationNode, keyValid: bool, unhandled: seq<Key>) returns (wanted: Option<seq<Key>>)
      ensures wanted == if keyValid then Some(Lacked(peer.messages, unhandled)) else None
    {
      var reply := peer.OnOfferRequest(true, keyValid, unhandled);
      if reply == InvalidKey { return None; }
      LackedAll(peer.messages, unhandled);
      ghost var lacked := Lacked(peer.messages, unhandled);
      assert lacked != [] ==> lacked[0] in lacked;
      wanted := WantedOf(reply, unhandled);
    }

    /** Uploads what was asked for; all that was offered is then handled. */
    method UploadWanted(peer: PropagationNode, peerId: nat, unhandled: seq<Key>, wanted: seq<Key>)
      requires peer != this && peerId in handledMessages && forall k | k in wanted :: k in unhandled
      modifies this`handledMessages, peer`messages
      ensures peer.messages == AdmitAll(peer.crypto, old(peer.messages), Parcels(messages, wanted))
      ensures handledMessages == old(handledMessages)[peerId := old(handledMessages)[peerId] + Elements(unhandled)]
    {
      HeldOrWanted(unhandled, wanted, handledMessages[peerId]);
      MarkHeld(peerId, unhandled, wanted);
      if |wanted| > 0 { peer.OnUpload(Some(Parcels(messages, wanted))); }
      handledMessages := handledMessages[peerId := handledMessages[peerId] + Elements(wanted)];
    }

    /** Offers everything not handled and uploads what the peer asks for. */
    method OfferUnhandled(peer: PropagationNode, peerId: nat, keyValid: bool) returns (result: SyncResult)
      requires peer != this && peerId in handledMessages
      modifies this`handledMessages, peer`messages
      ensures var o := SyncOutcome(peer.crypto, messages, old(peer.messages), old(handledMessages)[peerId], keyValid);
        result == o.result && peer.messages == o.peer && handledMessages == old(handledMessages)[peerId := o.handled]
    {
      var unhandled := Unhandled(messages, handledMessages[peerId]);
      ghost var o := SyncOutcome(peer.crypto, messages, peer.messages, handledMessages[peerId], keyValid);
      if |unhandled| == 0 {
        assert o == Outcome(Synced(0, 0), peer.messages, handledMessages[peerId]);
        return Synced(0, 0);
      }
      var wanted := Offer(peer, keyValid, unhandled);
      if wanted.None? {
        assert o == Outcome(Rejected, peer.messages, handledMessages[peerId]);
        return Rejected;
      }
      assert o.handled == handledMessages[peerId] + Elements(unhandled) && o.result == Synced(|unhandled|, |wanted.value|);
      assert o.peer == AdmitAll(peer.crypto, peer.messages, Parcels(messages, wanted.value));
      UploadWanted(peer, peerId, unhandled, wanted.value);
      return Synced(|unhandled|, |wanted.value|);
    }

    /** Whatever both nodes hold, a sync whose result is reported has been carried out:
        what the peer lacked is there, if it accepts the stamps, and nothing else has
        changed. */
    method SyncToPeer(peer: PropagationNode, peerId: nat, keyValid: bool) returns (result: SyncResult)
      requires peer != this
      modifies this`handledMessages, peer`messages
      ensures peerId in handledMessages && handledMessages == old(handledMessages)[peerId := handledMessages[peerId]]
      ensures SyncOutcome(peer.crypto, messages, old(peer.messages), HandledBy(old(handledMessages), peerId), keyValid)
              == Outcome(result, peer.messages, handledMessages[peerId])
      ensures FiledAlike(peer.crypto, messages, old(peer.messages)) ==>
                && OfferSettled(peer.crypto, messages, old(peer.messages), peer.messages,
                                HandledBy(old(handledMessages), peerId), handledMessages[peerId], result)
                && (result == Rejected <==> !keyValid && Unseen(messages, HandledBy(old(handledMessages), peerId)) != {})
    {
      ghost var before, handled := peer.messages, HandledBy(handledMessages, peerId);
      if peerId !in handledMessages { handledMessages := handledMessages[peerId := {}]; }
      ghost var recorded := handledMessages;
      result := OfferUnhandled(peer, peerId, keyValid);
      RecordedTwice(old(handledMessages), recorded, handledMessages, peerId);
      if FiledAlike(peer.crypto, messages, before) { OutcomeIsDone(peer.crypto, messages, before, handled, keyValid); }
    }
  }
}
