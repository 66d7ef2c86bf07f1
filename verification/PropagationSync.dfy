/** Synchronising with a propagation node: clients fetch and purge their messages,
    nodes offer theirs to a peer; uploads may come in between. */
module PropagationSync {
  import opened Bytes
  import opened PropagationStore

  // ----- responses within a limit -----

  function TotalWeight(response: seq<seq<byte>>): nat {
    if response == [] then 0 else Weight(response[0]) + TotalWeight(response[1..])
  }

  /** Unless empty, a response within a limit meets it with its overhead. */
  lemma {:induction false} LimitHolds(store: Store, owner: seq<byte>, wants: seq<Key>, used: nat, limit: Option<real>)
    ensures var r := ServedWithin(store, owner, wants, used, limit);
      limit.Some? && r != [] ==> (used + TotalWeight(r)) as real <= limit.value
    decreases |wants|
  {
    if wants != [] {
      LimitHolds(store, owner, wants[1..], used, limit);
      if Owned(store, owner, wants[0]) {
        var envelope := Get(store, wants[0]).envelope;
        var next := used + Weight(envelope);
        LimitHolds(store, owner, wants[1..], next, limit);
        var r := ServedWithin(store, owner, wants, used, limit);
        if !(limit.Some? && next as real > limit.value) {
          assert r[1..] == ServedWithin(store, owner, wants[1..], next, limit);
          assert r[1..] == [] ==> TotalWeight(r) == Weight(envelope);
        }
      }
    }
  }

  /** It holds whole envelopes of wanted messages of the owner and nothing else. */
  lemma {:induction false} OnlyWantedServed(store: Store, owner: seq<byte>, wants: seq<Key>, used: nat, limit: Option<real>,
                                            e: seq<byte>)
    requires e in ServedWithin(store, owner, wants, used, limit)
    ensures exists key :: key in wants && Owned(store, owner, key) && Get(store, key).envelope == e
    decreases |wants|
  {
    assert wants == [wants[0]] + wants[1..];
    if !Owned(store, owner, wants[0]) {
      OnlyWantedServed(store, owner, wants[1..], used, limit, e);
    } else {
      var envelope := Get(store, wants[0]).envelope;
      var next := used + Weight(envelope);
      if limit.Some? && next as real > limit.value {
        OnlyWantedServed(store, owner, wants[1..], used, limit, e);
      } else if e != envelope {
        OnlyWantedServed(store, owner, wants[1..], next, limit, e);
      }
    }
  }

  /** What is left out would not have fitted: no wanted message is missing from a
      response that still has room for it. */
  lemma {:induction false} OnlyMisfitsSkipped(store: Store, owner: seq<byte>, wants: seq<Key>, used: nat, limit: Option<real>, key: Key)
    requires key in wants && Owned(store, owner, key)
    ensures var r, e := ServedWithin(store, owner, wants, used, limit), Get(store, key).envelope;
      e in r || (limit.Some? && (used + TotalWeight(r) + Weight(e)) as real > limit.value)
    decreases |wants|
  {
    assert wants == [wants[0]] + wants[1..];
    if !Owned(store, owner, wants[0]) {
      OnlyMisfitsSkipped(store, owner, wants[1..], used, limit, key);
    } else {
      var envelope := Get(store, wants[0]).envelope;
      var next := used + Weight(envelope);
      if limit.Some? && next as real > limit.value {
        if key in wants[1..] { OnlyMisfitsSkipped(store, owner, wants[1..], used, limit, key); }
      } else {
        var r := ServedWithin(store, owner, wants, used, limit);
        assert r[1..] == ServedWithin(store, owner, wants[1..], next, limit) && r[0] == envelope;
        if key in wants[1..] { OnlyMisfitsSkipped(store, owner, wants[1..], next, limit, key); }
      }
    }
  }

  // ----- client sync -----

  lemma {:induction false} AllServed(store: Store, owner: seq<byte>, wants: seq<Key>)
    requires forall k | k in wants :: Owned(store, owner, k)
    ensures var r := Served(store, owner, wants);
      |r| == |wants| && forall i :: 0 <= i < |r| ==> Owned(store, owner, wants[i]) && r[i] == Get(store, wants[i]).envelope
    decreases |wants|
  {
    if wants != [] {
      assert wants == [wants[0]] + wants[1..];
      AllServed(store, owner, wants[1..]);
    }
  }

  /** Without a limit both kinds of request serve the same. */
  lemma {:induction false} UnlimitedServes(store: Store, owner: seq<byte>, wants: seq<Key>, used: nat)
    ensures ServedWithin(store, owner, wants, used, None) == Served(store, owner, wants)
    decreases |wants|
  {
    if wants != [] {
      UnlimitedServes(store, owner, wants[1..], used);
      if Owned(store, owner, wants[0]) {
        UnlimitedServes(store, owner, wants[1..], used + Weight(Get(store, wants[0]).envelope));
      }
    }
  }

  /** A listing names each message of the owner exactly once and nothing else. */
  ghost predicate Lists(store: Store, owner: seq<byte>, keys: seq<Key>) {
    forall key :: multiset(keys)[key] == if Owned(store, owner, key) then 1 else 0
  }

  /** Whether some item of the owner is stored under this key. */
  ghost predicate Stores(store: Store, owner: seq<byte>, key: Key) {
    exists item :: item in store && item.key == key && item.destination == owner
  }

  lemma StoresMore(c: Crypto, init: Store, last: Item, owner: seq<byte>, key: Key)
    requires StoreOk(c, init + [last])
    ensures Stores(init + [last], owner, key) <==> Stores(init, owner, key) || (last.key == key && last.destination == owner)
    ensures last.key == key ==> !Stores(init, owner, key)
  {
    var store := init + [last];
    assert store[|init|] == last;
    forall item | item in init ensures item in store && item.key != last.key {
      var i :| 0 <= i < |init| && init[i] == item;
      assert store[i] == item;
    }
  }

  lemma {:induction false} ListingCounts(c: Crypto, store: Store, owner: seq<byte>, key: Key)
    requires StoreOk(c, store)
    ensures multiset(FirstOf(Listing(store, owner)))[key] == if Stores(store, owner, key) then 1 else 0
    decreases |store|
  {
    if store == [] {
      assert FirstOf([]) == [];
    } else {
      var init, last := store[..|store| - 1], store[|store| - 1];
      assert store == init + [last];
      StoresMore(c, init, last, owner, key);
      ListingCounts(c, init, owner, key);
      var all, some := FirstOf(Listing(store, owner)), FirstOf(Listing(init, owner));
      assert all == if last.destination == owner then some + [last.key] else some;
    }
  }

  lemma ListingLists(c: Crypto, store: Store, owner: seq<byte>)
    requires StoreOk(c, store)
    ensures Lists(store, owner, FirstOf(Listing(store, owner)))
  {
    forall key ensures multiset(FirstOf(Listing(store, owner)))[key] == if Owned(store, owner, key) then 1 else 0 {
      ListingCounts(c, store, owner, key);
      OwnedMeansItem(c, store, owner, key);
    }
  }

  predicate Sorted(list: seq<(Key, nat)>) { forall i, j :: 0 <= i < j < |list| ==> list[i].1 <= list[j].1 }

  lemma KeysCons(x: (Key, nat), list: seq<(Key, nat)>)
    ensures multiset(FirstOf([x] + list)) == multiset{x.0} + multiset(FirstOf(list))
  {
    assert FirstOf([x] + list) == [x.0] + FirstOf(list);
  }

  lemma {:induction false} InsertKeys(list: seq<(Key, nat)>, e: (Key, nat))
    ensures multiset(FirstOf(Insert(list, e))) == multiset(FirstOf(list)) + multiset{e.0}
    decreases |list|
  {
    if list == [] {
      assert [e] == [e] + list;
      KeysCons(e, list);
    } else if e.1 < list[0].1 {
      KeysCons(e, list);
    } else {
      var rest := list[1..];
      assert list == [list[0]] + rest && Insert(list, e) == [list[0]] + Insert(rest, e);
      InsertKeys(rest, e);
      KeysCons(list[0], Insert(rest, e));
      KeysCons(list[0], rest);
    }
  }

  lemma InsertedFrom(list: seq<(Key, nat)>, e: (Key, nat))
    ensures forall x | x in Insert(list, e) :: x in list || x == e
  {
    forall x | x in Insert(list, e) ensures x in list || x == e {
      assert x in multiset(Insert(list, e));
    }
  }

  lemma {:induction false} InsertSorts(list: seq<(Key, nat)>, e: (Key, nat))
    requires Sorted(list)
    ensures Sorted(Insert(list, e))
    decreases |list|
  {
    if list != [] && e.1 >= list[0].1 {
      InsertSorts(list[1..], e);
      InsertedFrom(list[1..], e);
      var rest := Insert(list[1..], e);
      forall j | 0 <= j < |rest| ensures list[0].1 <= rest[j].1 { assert rest[j] in rest; }
      assert Insert(list, e) == [list[0]] + rest;
    }
  }

  lemma {:induction false} BySizeSorts(list: seq<(Key, nat)>)
    ensures Sorted(BySize(list))
    decreases |list|
  {
    if list != [] {
      BySizeSorts(list[..|list| - 1]);
      InsertSorts(BySize(list[..|list| - 1]), list[|list| - 1]);
    }
  }

  lemma KeysSnoc(list: seq<(Key, nat)>)
    requires list != []
    ensures multiset(FirstOf(list)) == multiset(FirstOf(list[..|list| - 1])) + multiset{list[|list| - 1].0}
  {
    assert FirstOf(list) == FirstOf(list[..|list| - 1]) + [list[|list| - 1].0];
  }

  /** Sorting by size loses and repeats no key, and sorts. */
  lemma {:induction false} BySizeKeys(list: seq<(Key, nat)>)
    ensures multiset(FirstOf(BySize(list))) == multiset(FirstOf(list)) && Sorted(BySize(list))
    decreases |list|
  {
    BySizeSorts(list);
    if list != [] {
      var init, last := list[..|list| - 1], list[|list| - 1];
      BySizeKeys(init);
      InsertKeys(BySize(init), last);
      KeysSnoc(list);
    }
  }

  function OfSize(list: seq<(Key, nat)>, n: nat): seq<(Key, nat)> {
    if list == [] then [] else (if list[0].1 == n then [list[0]] else []) + OfSize(list[1..], n)
  }

  lemma {:induction false} NoneOfSize(list: seq<(Key, nat)>, n: nat)
    requires forall k :: 0 <= k < |list| ==> list[k].1 > n
    ensures OfSize(list, n) == []
  {
    if list != [] { NoneOfSize(list[1..], n); }
  }

  lemma {:induction false} OfSizeSnoc(list: seq<(Key, nat)>, e: (Key, nat), n: nat)
    ensures OfSize(list + [e], n) == OfSize(list, n) + (if e.1 == n then [e] else [])
  {
    if list == [] {
      assert [e][1..] == [];
    } else {
      assert (list + [e])[1..] == list[1..] + [e];
      OfSizeSnoc(list[1..], e, n);
    }
  }

  lemma {:induction false} InsertStable(list: seq<(Key, nat)>, e: (Key, nat), n: nat)
    requires Sorted(list)
    ensures OfSize(Insert(list, e), n) == OfSize(list, n) + (if e.1 == n then [e] else [])
    decreases |list|
  {
    if list == [] {
      assert [e][1..] == [];
    } else if e.1 < list[0].1 {
      assert ([e] + list)[1..] == list;
      if e.1 == n { NoneOfSize(list, n); }
    } else {
      InsertStable(list[1..], e, n);
      assert ([list[0]] + Insert(list[1..], e))[1..] == Insert(list[1..], e);
    }
  }

  lemma OfSizeLast(list: seq<(Key, nat)>, n: nat)
    requires list != []
    ensures var last := list[|list| - 1]; OfSize(list, n) == OfSize(list[..|list| - 1], n) + (if last.1 == n then [last] else [])
  {
    OfSizeSnoc(list[..|list| - 1], list[|list| - 1], n);
    assert list == list[..|list| - 1] + [list[|list| - 1]];
  }

  /** Messages of one size stay in the order listed. */
  lemma {:induction false} BySizeStable(list: seq<(Key, nat)>, n: nat)
    ensures OfSize(BySize(list), n) == OfSize(list, n)
    decreases |list|
  {
    if list != [] {
      var init, last := list[..|list| - 1], list[|list| - 1];
      BySizeStable(init, n);
      BySizeSorts(init);
      InsertStable(BySize(init), last, n);
      OfSizeLast(list, n);
    }
  }

  /** The messages of the owner are those listed when the store was `before`, and
      are still the same in the grown store. */
  lemma ListedStay(c: Crypto, before: Store, after: Store, owner: seq<byte>, keys: seq<Key>)
    requires StoreOk(c, before) && before <= after && Lists(before, owner, keys)
    ensures forall key | key in keys :: Owned(before, owner, key) && Owned(after, owner, key) && Get(after, key) == Get(before, key)
  {
    forall key | key in keys
      ensures Owned(before, owner, key) && Owned(after, owner, key) && Get(after, key) == Get(before, key)
    {
      assert key in multiset(keys);
      FindInPrefix(before, after[|before|..], key);
      assert before + after[|before|..] == after;
    }
  }

  /** What a client sync must do, whatever was uploaded meanwhile: deliver every
      message listed at the start, once, and leave the node with exactly the rest. */
  ghost predicate SyncDone(c: Crypto, start: Store, before: Store, after: Store, owner: seq<byte>,
                           listing: seq<Key>, response: seq<seq<byte>>) {
    && Lists(start, owner, listing)
    && |response| == |listing|
    && (forall i :: 0 <= i < |listing| ==> Has(start, listing[i]) && response[i] == Get(start, listing[i]).envelope)
    && StoreOk(c, after)
    && (forall item :: item in after <==> item in before && !(item.destination == owner && item.key in listing))
  }

  /** Listing, then fetching and purging in one request. */
  lemma SyncLosesNothing(c: Crypto, start: Store, uploads: seq<Option<seq<byte>>>, owner: seq<byte>)
    requires StoreOk(c, start)
    ensures var listing := FirstOf(Listing(start, owner));
      var before := AdmitAll(c, start, uploads);
      SyncDone(c, start, before, Purged(before, owner, listing), owner, listing, Served(before, owner, listing))
  {
    var listing := FirstOf(Listing(start, owner));
    var before := AdmitAll(c, start, uploads);
    ListingLists(c, start, owner);
    AdmitAllKeeps(c, start, uploads);
    ListedStay(c, start, before, owner, listing);
    AllServed(before, owner, listing);
    PurgedItems(c, before, owner, listing);
  }

  /** Listing by size, fetching without a limit, and purging in a third request. */
  lemma RealSyncLosesNothing(c: Crypto, start: Store, first: seq<Option<seq<byte>>>, second: seq<Option<seq<byte>>>,
                             owner: seq<byte>)
    requires StoreOk(c, start)
    ensures var listing := FirstOf(BySize(Listing(start, owner)));
      var fetched := AdmitAll(c, start, first);
      var before := AdmitAll(c, fetched, second);
      SyncDone(c, start, before, Purged(before, owner, listing), owner, listing,
               ServedWithin(fetched, owner, listing, RESPONSE_OVERHEAD, None))
  {
    var listing := FirstOf(BySize(Listing(start, owner)));
    var fetched := AdmitAll(c, start, first);
    var before := AdmitAll(c, fetched, second);
    ListingLists(c, start, owner);
    BySizeKeys(Listing(start, owner));
    AdmitAllKeeps(c, start, first);
    AdmitAllKeeps(c, fetched, second);
    ListedStay(c, start, fetched, owner, listing);
    AllServed(fetched, owner, listing);
    UnlimitedServes(fetched, owner, listing, RESPONSE_OVERHEAD);
    PurgedItems(c, before, owner, listing);
  }

  lemma NotStored(store: Store, key: Key)
    requires forall x | x in store :: x.key != key
    ensures !Has(store, key)
  {
  }

  /** If the reply to the joint request is lost, so are the messages: the node has
      purged them. Fetching alone leaves them there to be fetched again. */
  lemma LostReply(c: Crypto, start: Store, uploads: seq<Option<seq<byte>>>, owner: seq<byte>, key: Key)
    requires StoreOk(c, start) && Owned(start, owner, key)
    ensures var before := AdmitAll(c, start, uploads);
      Has(before, key) && !Has(Purged(before, owner, FirstOf(Listing(start, owner))), key)
  {
    var listing := FirstOf(Listing(start, owner));
    var before := AdmitAll(c, start, uploads);
    var after := Purged(before, owner, listing);
    SyncLosesNothing(c, start, uploads, owner);
    assert key in multiset(listing);
    AdmitAllKeeps(c, start, uploads);
    ListedStay(c, start, before, owner, listing);
    var item := Get(before, key);
    forall x | x in before && x.key == key ensures x == item {
      var i :| 0 <= i < |before| && before[i] == x;
      HasWhenListed(before, i);
    }
    NotStored(after, key);
  }

  datatype Change = Uploaded(entries: seq<Option<seq<byte>>>) | Asked(owner: seq<byte>, haves: seq<Key>)

  function Changed(c: Crypto, store: Store, changes: seq<Change>): Store
    decreases |changes|
  {
    if changes == [] then store
    else
      var next := match changes[0]
        case Uploaded(entries) => AdmitAll(c, store, entries)
        case Asked(owner, haves) => Purged(store, owner, haves);
      Changed(c, next, changes[1..])
  }

  /** Whatever is uploaded and purged, each message stays filed, once, under the hash
      of its envelope. */
  lemma {:induction false} AlwaysFiledByHash(c: Crypto, changes: seq<Change>, store: Store)
    requires StoreOk(c, store)
    ensures StoreOk(c, Changed(c, store, changes))
    decreases |changes|
  {
    if changes != [] {
      match changes[0]
      case Uploaded(entries) =>
        AdmitAllKeeps(c, store, entries);
        AlwaysFiledByHash(c, changes[1..], AdmitAll(c, store, entries));
      case Asked(owner, haves) =>
        PurgedItems(c, store, owner, haves);
        AlwaysFiledByHash(c, changes[1..], Purged(store, owner, haves));
    }
  }

  /** An entry long enough is stored if and only if its stamp is good enough or its
      message is there already; one that is new is stored as it came. */
  lemma AdmittedIff(c: Crypto, store: Store, entry: seq<byte>)
    requires |entry| > ADDRESS_SIZE + STAMP_SIZE
    ensures var item, after := Parcel(c, entry), Admit(c, store, Some(entry));
      && (Has(after, item.key) <==> Has(store, item.key) || c.stampValid(item.key, item.stamp))
      && after == if !Has(store, item.key) && c.stampValid(item.key, item.stamp) then store + [item] else store
  {
    HasAppended(store, Parcel(c, entry), Parcel(c, entry).key);
  }

  lemma {:induction false} UploadsStamped(c: Crypto, store: Store, entries: seq<Option<seq<byte>>>)
    ensures forall item | item in AdmitAll(c, store, entries) :: item in store || c.stampValid(item.key, item.stamp)
    decreases |entries|
  {
    if entries != [] { UploadsStamped(c, Admit(c, store, entries[0]), entries[1..]); }
  }

  /** Whatever is uploaded and purged, nothing comes into the store without a stamp
      good enough for it. */
  lemma {:induction false} AlwaysStamped(c: Crypto, changes: seq<Change>, store: Store)
    requires StoreOk(c, store)
    ensures forall item | item in Changed(c, store, changes) :: item in store || c.stampValid(item.key, item.stamp)
    decreases |changes|
  {
    if changes != [] {
      match changes[0]
      case Uploaded(entries) =>
        UploadsStamped(c, store, entries);
        AdmitAllKeeps(c, store, entries);
        AlwaysStamped(c, changes[1..], AdmitAll(c, store, entries));
      case Asked(owner, haves) =>
        PurgedItems(c, store, owner, haves);
        AlwaysStamped(c, changes[1..], Purged(store, owner, haves));
    }
  }

  // ----- peer sync -----

  /** The stored keys this peer has not been seen to have, in store order. */
  function Unhandled(store: Store, handled: set<Key>): (keys: seq<Key>)
    ensures forall k | k in keys :: k !in handled && exists item :: item in store && item.key == k
    ensures forall item | item in store && item.key !in handled :: item.key in keys
  {
    if store == [] then []
    else
      assert store == [store[0]] + store[1..];
      (if store[0].key in handled then [] else [store[0].key]) + Unhandled(store[1..], handled)
  }

  /** What the peer asked for; None when it refused. */
  function WantedOf(reply: OfferReply, offered: seq<Key>): Option<seq<Key>> {
    match reply
    case WantNone => Some([])
    case WantAll => Some(offered)
    case Want(ids) => Some(ids)
    case _ => None
  }

  /** The wanted messages as they are uploaded, stamp and all. */
  function Parcels(store: Store, wanted: seq<Key>): seq<Option<seq<byte>>> {
    if wanted == [] then []
    else
      (if Has(store, wanted[0]) then [Some(Get(store, wanted[0]).envelope + Get(store, wanted[0]).stamp)] else [])
      + Parcels(store, wanted[1..])
  }

  function Elements(keys: seq<Key>): set<Key> { set k | k in keys }

  /** Uploading a stored message files it under the same key. */
  lemma ParcelOf(c: Crypto, item: Item)
    requires ItemOk(c, item)
    ensures |item.envelope + item.stamp| > ADDRESS_SIZE + STAMP_SIZE
    ensures Parcel(c, item.envelope + item.stamp) == item
  {
    var entry := item.envelope + item.stamp;
    assert entry[..|entry| - STAMP_SIZE] == item.envelope && entry[|entry| - STAMP_SIZE..] == item.stamp;
  }

  lemma AdmitAdds(c: Crypto, store: Store, item: Item)
    requires StoreOk(c, store) && ItemOk(c, item)
    ensures var after := Admit(c, store, Some(item.envelope + item.stamp));
      && StoreOk(c, after) && store <= after
      && forall k :: Has(after, k) <==> Has(store, k) || (k == item.key && c.stampValid(item.key, item.stamp))
  {
    ParcelOf(c, item);
    var after := Admit(c, store, Some(item.envelope + item.stamp));
    AdmitKeeps(c, store, Some(item.envelope + item.stamp));
    forall k ensures Has(after, k) <==> Has(store, k) || (k == item.key && c.stampValid(item.key, item.stamp)) {
      HasAppended(store, item, k);
    }
  }

  lemma {:induction false} HasAppended(store: Store, item: Item, k: Key)
    ensures Has(store + [item], k) <==> Has(store, k) || k == item.key
  {
    if store == [] {
      assert [item][1..] == [];
    } else {
      assert (store + [item])[1..] == store[1..] + [item];
      HasAppended(store[1..], item, k);
    }
  }

  /** The stored message has a stamp good enough for this node. */
  predicate Stamped(c: Crypto, store: Store, k: Key) { Has(store, k) && c.stampValid(k, Get(store, k).stamp) }

  /** The uploads of a sync are admitted by their stamps: the peer then has its own keys
      and those wanted whose stamps it accepts. */
  lemma {:induction false} ParcelsAdmitted(c: Crypto, peer: Store, node: Store, wanted: seq<Key>)
    requires StoreOk(c, peer) && StoreOk(c, node) && forall k | k in wanted :: Has(node, k)
    ensures var after := AdmitAll(c, peer, Parcels(node, wanted));
      && StoreOk(c, after) && peer <= after
      && forall k :: Has(after, k) <==> Has(peer, k) || (k in wanted && Stamped(c, node, k))
    decreases |wanted|
  {
    if wanted != [] {
      assert wanted == [wanted[0]] + wanted[1..];
      var item := Get(node, wanted[0]);
      AdmitAdds(c, peer, item);
      var next := Admit(c, peer, Some(item.envelope + item.stamp));
      ParcelsAdmitted(c, next, node, wanted[1..]);
      var ps := Parcels(node, wanted);
      assert ps[0] == Some(item.envelope + item.stamp) && ps[1..] == Parcels(node, wanted[1..]);
    }
  }

  /** One sync: `offered` from the node's store, the peer's answer from its own;
      other uploads reach both before the wanted messages are sent. */
  datatype Sync = Sync(offered: seq<Key>, wanted: seq<Key>, peer: Store, handled: set<Key>)

  function PeerSync(c: Crypto, node: Store, nodeLater: Store, peer: Store, peerLater: Store, handled: set<Key>): Sync {
    var offered := Unhandled(node, handled);
    var wanted := if offered == [] then [] else Lacked(peer, offered);
    Sync(offered, wanted, AdmitAll(c, peerLater, Parcels(nodeLater, wanted)), handled + Elements(offered))
  }

  lemma UnhandledHas(c: Crypto, store: Store, handled: set<Key>, k: Key)
    requires StoreOk(c, store)
    ensures k in Unhandled(store, handled) <==> Has(store, k) && k !in handled
  {
    if k in Unhandled(store, handled) {
      var item :| item in store && item.key == k;
      var i :| 0 <= i < |store| && store[i] == item;
      HasWhenListed(store, i);
    }
    if Has(store, k) { assert Get(store, k) in store; }
  }

  lemma StillHas(store: Store, later: Store, k: Key)
    requires Has(store, k) && store <= later
    ensures Has(later, k)
  {
    FindInPrefix(store, later[|store|..], k);
    assert store + later[|store|..] == later;
  }

  /** After a sync the peer has an offered message exactly if it had it or accepts its
      stamp; what was uploaded is exactly what it lacked; nothing else in its store
      changed; and every offered message counts as handled. */
  lemma PeerSyncConverges(c: Crypto, node: Store, nodeLater: Store, peer: Store, peerLater: Store, handled: set<Key>)
    requires StoreOk(c, node) && StoreOk(c, nodeLater) && node <= nodeLater
    requires StoreOk(c, peer) && StoreOk(c, peerLater) && peer <= peerLater
    ensures var s := PeerSync(c, node, nodeLater, peer, peerLater, handled);
      && (forall k :: k in s.offered <==> Has(node, k) && k !in handled)
      && (forall k | k in s.offered :: k in s.handled && (Has(s.peer, k) <==> Has(peerLater, k) || Stamped(c, nodeLater, k)))
      && (forall k :: k in s.wanted <==> k in s.offered && !Has(peer, k))
      && StoreOk(c, s.peer) && peerLater <= s.peer
      && (forall k :: Has(s.peer, k) <==> Has(peerLater, k) || (k in s.wanted && Stamped(c, nodeLater, k)))
  {
    var s := PeerSync(c, node, nodeLater, peer, peerLater, handled);
    forall k ensures k in s.offered <==> Has(node, k) && k !in handled { UnhandledHas(c, node, handled, k); }
    forall k | k in s.wanted ensures Has(nodeLater, k) { StillHas(node, nodeLater, k); }
    ParcelsAdmitted(c, peerLater, nodeLater, s.wanted);
    forall k | k in s.offered ensures Has(s.peer, k) <==> Has(peerLater, k) || Stamped(c, nodeLater, k) {
      if Has(peer, k) { StillHas(peer, peerLater, k); }
    }
  }

  lemma StoreTail(c: Crypto, store: Store)
    requires StoreOk(c, store) && store != []
    ensures StoreOk(c, store[1..]) && forall item | item in store[1..] :: item.key != store[0].key
  {
    var rest := store[1..];
    forall i | 0 <= i < |rest| ensures ItemOk(c, rest[i]) { assert rest[i] == store[i + 1]; }
  }

  /** The offered keys are distinct. */
  lemma {:induction false} OffersAreDistinct(c: Crypto, store: Store, handled: set<Key>, i: nat, j: nat)
    requires StoreOk(c, store) && i < j < |Unhandled(store, handled)|
    ensures Unhandled(store, handled)[i] != Unhandled(store, handled)[j]
    decreases |store|
  {
    var rest := Unhandled(store[1..], handled);
    StoreTail(c, store);
    if store[0].key in handled {
      assert Unhandled(store, handled) == rest;
      OffersAreDistinct(c, store[1..], handled, i, j);
    } else if i > 0 {
      OffersAreDistinct(c, store[1..], handled, i - 1, j - 1);
    } else {
      assert Unhandled(store, handled)[j] == rest[j - 1] && rest[j - 1] in rest;
    }
  }

  /** A sync each way leaves both nodes with the union of their messages, and for
      one key the same envelope, if no two envelopes of theirs share a hash. */
  lemma BothWaysUnite(c: Crypto, a: Store, b: Store, handledByA: set<Key>, handledByB: set<Key>)
    requires StoreOk(c, a) && StoreOk(c, b)
    requires forall item | item in a + b :: c.stampValid(item.key, item.stamp)
    requires (forall k | k in handledByA :: Has(b, k)) && (forall k | k in handledByB :: Has(a, k))
    ensures var b' := PeerSync(c, a, a, b, b, handledByA).peer;
      var a' := PeerSync(c, b', b', a, a, handledByB).peer;
      forall k :: (Has(a', k) <==> Has(a, k) || Has(b, k)) && (Has(b', k) <==> Has(a, k) || Has(b, k))
  {
    PeerSyncConverges(c, a, a, b, b, handledByA);
    var b' := PeerSync(c, a, a, b, b, handledByA).peer;
    UploadsAreTheirs(c, b, a, PeerSync(c, a, a, b, b, handledByA).wanted);
    PeerSyncConverges(c, b', b', a, a, handledByB);
  }

  /** Everything in a store after uploads was there before or is in the sender's. */
  lemma {:induction false} UploadsAreTheirs(c: Crypto, peer: Store, node: Store, wanted: seq<Key>)
    requires StoreOk(c, peer) && StoreOk(c, node)
    ensures forall item | item in AdmitAll(c, peer, Parcels(node, wanted)) :: item in peer || item in node
    decreases |wanted|
  {
    if wanted != [] {
      if Has(node, wanted[0]) {
        var item := Get(node, wanted[0]);
        ParcelOf(c, item);
        var entry := Some(item.envelope + item.stamp);
        AdmitKeeps(c, peer, entry);
        UploadsAreTheirs(c, Admit(c, peer, entry), node, wanted[1..]);
        var ps := Parcels(node, wanted);
        assert ps[0] == entry && ps[1..] == Parcels(node, wanted[1..]);
      } else {
        UploadsAreTheirs(c, peer, node, wanted[1..]);
        assert Parcels(node, wanted) == Parcels(node, wanted[1..]);
      }
    }
  }

  /** Under one key two stores hold the same envelope, unless hashes collide. */
  lemma SameKeySameEnvelope(c: Crypto, a: Store, b: Store, k: Key)
    requires StoreOk(c, a) && StoreOk(c, b) && Has(a, k) && Has(b, k)
    requires forall x, y | x in a && y in b && c.id(x.envelope) == c.id(y.envelope) :: x.envelope == y.envelope
    ensures Get(a, k).envelope == Get(b, k).envelope && Get(a, k).destination == Get(b, k).destination
  {
    var x, y := Get(a, k), Get(b, k);
    assert ItemOk(c, x) && ItemOk(c, y);
  }
}
