/** The message store of a propagation node and what its request handlers do with
    it. */
module PropagationStore {
  import opened Bytes

  /** The hash of an envelope; destination hashes are octets of the envelope. */
  type Key = nat

  const ADDRESS_SIZE := 16
  const STAMP_SIZE := 32

  /** Hashing, and whether a stamp meets the node's cost for a key. */
  datatype Crypto = Crypto(id: seq<byte> -> Key, stampValid: (Key, seq<byte>) -> bool)

  datatype Item = Item(key: Key, destination: seq<byte>, envelope: seq<byte>, stamp: seq<byte>)

  /** Items in the order they were stored; keys are distinct. */
  type Store = seq<Item>

  function Find(store: Store, key: Key): (i: nat)
    ensures i <= |store|
    ensures i < |store| ==> store[i].key == key
    ensures forall j :: 0 <= j < i ==> store[j].key != key
  {
    if store == [] || store[0].key == key then 0 else 1 + Find(store[1..], key)
  }

  predicate Has(store: Store, key: Key) { Find(store, key) < |store| }

  function Get(store: Store, key: Key): (item: Item)
    requires Has(store, key)
    ensures item in store && item.key == key
  {
    store[Find(store, key)]
  }

  /** Stored under `key` for `owner`. */
  predicate Owned(store: Store, owner: seq<byte>, key: Key) { Has(store, key) && Get(store, key).destination == owner }

  function Delete(store: Store, key: Key): Store {
    var i := Find(store, key);
    if i < |store| then store[..i] + store[i + 1..] else store
  }

  // ----- uploads -----

  function Parcel(c: Crypto, entry: seq<byte>): (item: Item)
    requires |entry| > ADDRESS_SIZE + STAMP_SIZE
  {
    var envelope := entry[..|entry| - STAMP_SIZE];
    Item(c.id(envelope), envelope[..ADDRESS_SIZE], envelope, entry[|entry| - STAMP_SIZE..])
  }

  /** One uploaded entry: kept if it is long enough, stamped well enough and new.
      None stands for a value that is not octets. */
  function Admit(c: Crypto, store: Store, entry: Option<seq<byte>>): Store {
    if entry.None? || |entry.value| <= ADDRESS_SIZE + STAMP_SIZE then store
    else
      var item := Parcel(c, entry.value);
      if !c.stampValid(item.key, item.stamp) || Has(store, item.key) then store else store + [item]
  }

  function AdmitAll(c: Crypto, store: Store, entries: seq<Option<seq<byte>>>): Store
    decreases |entries|
  {
    if entries == [] then store else AdmitAll(c, Admit(c, store, entries[0]), entries[1..])
  }

  /** Every item is filed under the hash of its envelope, once. */
  predicate StoreOk(c: Crypto, store: Store) {
    && (forall i :: 0 <= i < |store| ==> ItemOk(c, store[i]))
    && (forall i, j :: 0 <= i < j < |store| ==> store[i].key != store[j].key)
  }

  predicate ItemOk(c: Crypto, item: Item) {
    && item.key == c.id(item.envelope) && |item.envelope| > ADDRESS_SIZE && |item.stamp| == STAMP_SIZE
    && item.destination == item.envelope[..ADDRESS_SIZE]
  }

  // ----- client requests -----

  /** The messages for `owner`: keys and envelope lengths. */
  function Listing(store: Store, owner: seq<byte>): (list: seq<(Key, nat)>)
    ensures forall e | e in list :: exists i :: 0 <= i < |store| && store[i].destination == owner && e == (store[i].key, |store[i].envelope|)
    ensures forall i :: 0 <= i < |store| && store[i].destination == owner ==> (store[i].key, |store[i].envelope|) in list
  {
    if store == [] then []
    else
      var last := |store| - 1;
      Listing(store[..last], owner) +
      (if store[last].destination == owner then [(store[last].key, |store[last].envelope|)] else [])
  }

  function FirstOf(list: seq<(Key, nat)>): (keys: seq<Key>)
    ensures |keys| == |list| && forall i :: 0 <= i < |list| ==> keys[i] == list[i].0
  {
    seq<Key>(|list|, i requires 0 <= i < |list| => list[i].0)
  }

  /** Smallest first, equal sizes in the order given. */
  function Insert(list: seq<(Key, nat)>, e: (Key, nat)): (r: seq<(Key, nat)>)
    ensures |r| == |list| + 1 && multiset(r) == multiset(list) + multiset{e}
  {
    if list == [] then [e]
    else
      assert list == [list[0]] + list[1..];
      if e.1 < list[0].1 then [e] + list else [list[0]] + Insert(list[1..], e)
  }

  function BySize(list: seq<(Key, nat)>): (r: seq<(Key, nat)>)
    ensures |r| == |list| && multiset(r) == multiset(list)
  {
    if list == [] then []
    else
      assert list == list[..|list| - 1] + [list[|list| - 1]];
      Insert(BySize(list[..|list| - 1]), list[|list| - 1])
  }

  /** The envelopes of the wanted keys that are stored for `owner`. */
  function Served(store: Store, owner: seq<byte>, wants: seq<Key>): seq<seq<byte>> {
    if wants == [] then []
    else (if Owned(store, owner, wants[0]) then [Get(store, wants[0]).envelope] else []) + Served(store, owner, wants[1..])
  }

  /** What an envelope adds to the size of a response. */
  function Weight(envelope: seq<byte>): nat { |envelope| + STAMP_SIZE + 16 }

  const RESPONSE_OVERHEAD := 24

  /** The same within a size limit: what would cross it is skipped. */
  function ServedWithin(store: Store, owner: seq<byte>, wants: seq<Key>, used: nat, limit: Option<real>): seq<seq<byte>> {
    if wants == [] then []
    else if !Owned(store, owner, wants[0]) then ServedWithin(store, owner, wants[1..], used, limit)
    else
      var envelope := Get(store, wants[0]).envelope;
      var next := used + Weight(envelope);
      if limit.Some? && next as real > limit.value then ServedWithin(store, owner, wants[1..], used, limit)
      else [envelope] + ServedWithin(store, owner, wants[1..], next, limit)
  }

  /** The listed keys that are stored for `owner` are deleted. */
  function Purged(store: Store, owner: seq<byte>, haves: seq<Key>): Store
    decreases |haves|
  {
    if haves == [] then store
    else Purged(if Owned(store, owner, haves[0]) then Delete(store, haves[0]) else store, owner, haves[1..])
  }

  // ----- offers between nodes -----

  datatype OfferReply = NoIdentity | InvalidKey | WantNone | WantAll | Want(ids: seq<Key>)

  function Lacked(store: Store, offered: seq<Key>): (ids: seq<Key>)
    ensures |ids| <= |offered|
    ensures forall id :: id in ids <==> id in offered && !Has(store, id)
  {
    if offered == [] then []
    else
      assert offered == [offered[0]] + offered[1..];
      (if Has(store, offered[0]) then [] else [offered[0]]) + Lacked(store, offered[1..])
  }

  lemma {:induction false} LackedAppend(store: Store, offered: seq<Key>, id: Key)
    ensures Lacked(store, offered + [id]) == Lacked(store, offered) + (if Has(store, id) then [] else [id])
  {
    if offered == [] {
      assert [id][1..] == [];
    } else {
      assert (offered + [id])[1..] == offered[1..] + [id];
      LackedAppend(store, offered[1..], id);
    }
  }

  lemma {:induction false} LackedAll(store: Store, offered: seq<Key>)
    ensures |Lacked(store, offered)| == |offered| <==> forall id | id in offered :: !Has(store, id)
    ensures |Lacked(store, offered)| == |offered| ==> Lacked(store, offered) == offered
  {
    if offered != [] {
      LackedAll(store, offered[1..]);
      assert offered == [offered[0]] + offered[1..];
    }
  }

  // ----- what these keep -----

  lemma AdmitKeeps(c: Crypto, store: Store, entry: Option<seq<byte>>)
    requires StoreOk(c, store)
    ensures StoreOk(c, Admit(c, store, entry)) && store <= Admit(c, store, entry)
  {
  }

  /** Uploads only add to the store, and keep every key the hash of its envelope. */
  lemma {:induction false} AdmitAllKeeps(c: Crypto, store: Store, entries: seq<Option<seq<byte>>>)
    requires StoreOk(c, store)
    ensures StoreOk(c, AdmitAll(c, store, entries)) && store <= AdmitAll(c, store, entries)
    decreases |entries|
  {
    if entries != [] {
      AdmitKeeps(c, store, entries[0]);
      AdmitAllKeeps(c, Admit(c, store, entries[0]), entries[1..]);
    }
  }

  /** What is there stays findable when the store grows. */
  lemma {:induction false} FindInPrefix(store: Store, more: Store, key: Key)
    requires Has(store, key)
    ensures Has(store + more, key) && Get(store + more, key) == Get(store, key)
  {
    if store[0].key != key {
      FindInPrefix(store[1..], more, key);
      assert (store + more)[1..] == store[1..] + more;
    }
  }

  lemma HasWhenListed(store: Store, i: nat)
    requires i < |store| && forall j, k :: 0 <= j < k < |store| ==> store[j].key != store[k].key
    ensures Has(store, store[i].key) && Get(store, store[i].key) == store[i] && Find(store, store[i].key) == i
  {
  }

  lemma DeleteKeeps(c: Crypto, store: Store, key: Key)
    requires StoreOk(c, store)
    ensures StoreOk(c, Delete(store, key))
    ensures forall item :: item in Delete(store, key) <==> item in store && item.key != key
  {
    var i, d := Find(store, key), Delete(store, key);
    if i < |store| {
      forall item ensures item in d <==> item in store && item.key != key {
        if item in store && item.key != key {
          var j :| 0 <= j < |store| && store[j] == item;
          assert d[if j < i then j else j - 1] == item;
        }
        if item in d {
          var j :| 0 <= j < |d| && d[j] == item;
          assert store[if j < i then j else j + 1] == item;
        }
      }
    } else {
      forall item | item in store ensures item.key != key {
        var j :| 0 <= j < |store| && store[j] == item;
      }
    }
  }

  lemma OwnedMeansItem(c: Crypto, store: Store, owner: seq<byte>, key: Key)
    requires StoreOk(c, store)
    ensures Owned(store, owner, key) <==> exists item :: item in store && item.key == key && item.destination == owner
  {
    if item :| item in store && item.key == key && item.destination == owner {
      var i :| 0 <= i < |store| && store[i] == item;
      HasWhenListed(store, i);
    }
  }

  /** A purge removes exactly the listed items of that owner. */
  lemma {:induction false} PurgedItems(c: Crypto, store: Store, owner: seq<byte>, haves: seq<Key>)
    requires StoreOk(c, store)
    ensures StoreOk(c, Purged(store, owner, haves))
    ensures forall item :: item in Purged(store, owner, haves)
                      <==> item in store && !(item.destination == owner && item.key in haves)
    decreases |haves|
  {
    if haves != [] {
      OwnedMeansItem(c, store, owner, haves[0]);
      DeleteKeeps(c, store, haves[0]);
      var next := if Owned(store, owner, haves[0]) then Delete(store, haves[0]) else store;
      PurgedItems(c, next, owner, haves[1..]);
      assert haves == [haves[0]] + haves[1..];
      forall item | item in store ensures item in next <==> !(item.destination == owner && item.key == haves[0]) {
        if item.key == haves[0] {
          var i :| 0 <= i < |store| && store[i] == item;
          HasWhenListed(store, i);
        }
      }
    }
  }
}
