/** The two ends of a link exchanging resources: the sender's outgoing table,
    the receiver's incoming table and what they say to each other. */
module ResourceTransfer {
  import opened Bytes
  import opened ResourceIncoming

  /** 500 - 35 - 1 */
  const SDU := 464
  const SEGMENT_MAX_SIZE := 1024 * 1024 - 1
  const RANDOM_HASH_LEN := 4
  /** ceil((SEGMENT_MAX_SIZE + 128) / SDU) */
  const MAX_PARTS := (SEGMENT_MAX_SIZE + 128 + SDU - 1) / SDU

  // ----- cutting and joining -----

  /** Pieces of `size` octets, the last one possibly shorter; one empty piece for
      no data. */
  function Cut(data: seq<byte>, size: nat): (pieces: seq<seq<byte>>)
    requires size > 0
    ensures |pieces| >= 1
  {
    if |data| <= size then [data] else [data[..size]] + Cut(data[size..], size)
  }

  lemma {:induction false} JoinCut(data: seq<byte>, size: nat)
    requires size > 0
    ensures Join(Cut(data, size)) == data
  {
    if |data| <= size {
      assert Join([data]) == data + Join([]);
    } else {
      JoinCut(data[size..], size);
    }
  }

  /** The number of pieces is the length divided by the size, rounded up. */
  lemma {:induction false} CutCount(data: seq<byte>, size: nat)
    requires size > 0
    ensures (|Cut(data, size)| - 1) * size < |data| || |Cut(data, size)| == 1
    ensures |data| <= |Cut(data, size)| * size
    ensures forall k :: 0 <= k < |Cut(data, size)| ==> |Cut(data, size)[k]| <= size
  {
    if |data| > size { CutCount(data[size..], size); }
  }

  // ----- the cryptography, as functions -----

  datatype Env = Env(
    mapHash: (Part, Hash) -> Hash,
    open: seq<byte> -> Option<seq<byte>>,
    inflate: seq<byte> -> Option<seq<byte>>,
    resourceHash: (seq<byte>, Hash) -> Hash,
    proof: (seq<byte>, Hash) -> Hash)

  /** One prepared segment. */
  datatype Segment = Segment(header: Header, plaintext: seq<byte>, cipher: seq<byte>)

  function Parts(s: Segment): seq<Part> { Cut(s.cipher, SDU) }

  function Hashes(env: Env, s: Segment): (hs: seq<Hash>)
    ensures |hs| == |Parts(s)|
  {
    seq<Hash>(|Parts(s)|, k requires 0 <= k < |Parts(s)| => env.mapHash(Parts(s)[k], s.header.random))
  }

  datatype Unsealed = Opened(plaintext: seq<byte>) | DecryptFailed | DecompressFailed | HashMismatch

  /** Decrypt, drop the salt, decompress and check the advertised hash. */
  function Unseal(env: Env, h: Header, cipher: seq<byte>): Unsealed {
    match env.open(cipher)
    case None => DecryptFailed
    case Some(blob) =>
      var body := if |blob| < RANDOM_HASH_LEN then [] else blob[RANDOM_HASH_LEN..];
      var plain := if h.compressed then env.inflate(body) else Some(body);
      match plain
      case None => DecompressFailed
      case Some(plaintext) => if env.resourceHash(plaintext, h.random) == h.id then Opened(plaintext) else HashMismatch
  }

  datatype Packet =
    | Advertise(header: Header, totalParts: nat, entries: seq<Hash>)
    | Ask(request: Request)
    | PartData(part: Part)
    | MoreHashes(id: Hash, segment: nat, chunk: seq<Hash>)
    | Proof(id: Hash, value: Hash)

  // ----- the receiver -----

  datatype Emission = Emission(original: Hash, data: seq<byte>)

  /** `table` is in insertion order; `segmented` holds the segments of transfers
      not yet complete; `proved` counts the segments proved, by transfer. */
  datatype Receiver = Receiver(table: seq<Incoming>, segmented: map<Hash, seq<seq<byte>>>, emitted: seq<Emission>,
                               proved: multiset<Hash>)

  datatype RxOutcome = RxOutcome(rx: Receiver, sends: seq<Packet>)

  predicate HeightsOk(rx: Receiver) { forall i :: 0 <= i < |rx.table| ==> HeightOk(rx.table[i]) }

  /** The row with this resource hash, or the table's length. */
  function Row(table: seq<Incoming>, id: Hash): (i: nat)
    ensures i <= |table|
    ensures i < |table| ==> table[i].header.id == id
    ensures forall j :: 0 <= j < i ==> table[j].header.id != id
  {
    if table == [] || table[0].header.id == id then 0 else 1 + Row(table[1..], id)
  }

  function Put(table: seq<Incoming>, inc: Incoming): seq<Incoming> {
    var i := Row(table, inc.header.id);
    if i < |table| then table[i := inc] else table + [inc]
  }

  function Requested(rx: Receiver, r: Requesting): RxOutcome {
    RxOutcome(rx.(table := Put(rx.table, r.incoming)), if r.request.Some? then [Ask(r.request.value)] else [])
  }

  function OnAdvertise(rx: Receiver, h: Header, totalParts: nat, entries: seq<Hash>): RxOutcome {
    if totalParts == 0 || totalParts > MAX_PARTS then RxOutcome(rx, [])
    else
      var known := if |entries| > totalParts then entries[..totalParts] else entries;
      Requested(rx, RequestNext(New(h, totalParts, known)))
  }

  function OnMoreHashes(rx: Receiver, id: Hash, segment: nat, chunk: seq<Hash>): RxOutcome
    requires HeightsOk(rx)
  {
    var i := Row(rx.table, id);
    if i == |rx.table| then RxOutcome(rx, []) else Requested(rx, HashmapUpdate(rx.table[i], segment, chunk))
  }

  /** All parts are there: open the segment, prove it, and emit the transfer
      after its last segment. */
  function Assemble(env: Env, rx: Receiver, i: nat, done: Incoming): RxOutcome
    requires i < |rx.table| && forall k :: 0 <= k < |done.parts| ==> done.parts[k].Some?
  {
    var h := done.header;
    var rest := rx.(table := rx.table[..i] + rx.table[i + 1..]);
    match Unseal(env, h, Join(Bodies(done.parts)))
    case Opened(plaintext) =>
      var counted := rest.(proved := rx.proved + multiset{h.original});
      var chunks := (if h.original in rx.segmented then rx.segmented[h.original] else []) + [plaintext];
      RxOutcome(
        if h.index >= h.total
        then counted.(segmented := rx.segmented - {h.original}, emitted := rx.emitted + [Emission(h.original, Join(chunks))])
        else counted.(segmented := rx.segmented[h.original := chunks]),
        [Proof(h.id, env.proof(plaintext, h.id))])
    case _ => RxOutcome(rest, [])
  }

  function Bodies(parts: seq<Option<Part>>): seq<Part>
    requires forall k :: 0 <= k < |parts| ==> parts[k].Some?
  {
    seq(|parts|, k requires 0 <= k < |parts| => parts[k].value)
  }

  /** The first row, from `i` on, that recognises part `p`. */
  function Recognise(env: Env, table: seq<Incoming>, p: Part, i: nat): (r: nat)
    requires i <= |table| && forall k :: 0 <= k < |table| ==> HeightOk(table[k])
    ensures i <= r <= |table|
    ensures r < |table| ==> Match(table[r], env.mapHash(p, table[r].header.random)).Some?
    ensures forall k :: i <= k < r ==> Match(table[k], env.mapHash(p, table[k].header.random)).None?
    decreases |table| - i
  {
    if i == |table| || Match(table[i], env.mapHash(p, table[i].header.random)).Some? then i
    else Recognise(env, table, p, i + 1)
  }

  predicate AllHeld(inc: Incoming) { forall k :: 0 <= k < |inc.parts| ==> inc.parts[k].Some? }

  /** Row `i` takes part `p` at position `m`. */
  function TakePart(env: Env, rx: Receiver, i: nat, m: nat, p: Part, rate: Option<real>): RxOutcome
    requires HeightsOk(rx) && i < |rx.table|
  {
    var inc := rx.table[i];
    var stored := Store(inc, m, p);
    if m >= |inc.parts| || inc.parts[m].Some? then RxOutcome(rx.(table := rx.table[i := stored]), [])
    else if Complete(stored) && AllHeld(stored) then Assemble(env, rx, i, stored)
    else
      var r := AfterStore(stored, rate);
      RxOutcome(rx.(table := rx.table[i := r.incoming]), if r.request.Some? then [Ask(r.request.value)] else [])
  }

  function OnPart(env: Env, rx: Receiver, p: Part, rate: Option<real>): RxOutcome
    requires HeightsOk(rx)
  {
    var i := Recognise(env, rx.table, p, 0);
    if i == |rx.table| then RxOutcome(rx, [])
    else TakePart(env, rx, i, Match(rx.table[i], env.mapHash(p, rx.table[i].header.random)).value, p, rate)
  }

  /** The retry deadline of row `i` has passed. */
  function OnExpire(rx: Receiver, i: nat): RxOutcome
    requires HeightsOk(rx) && i < |rx.table|
  {
    match Expire(rx.table[i])
    case None => RxOutcome(rx.(table := rx.table[..i] + rx.table[i + 1..]), [])
    case Some(r) => RxOutcome(rx.(table := rx.table[i := r.incoming]), if r.request.Some? then [Ask(r.request.value)] else [])
  }

  // ----- the sender -----

  function AdvertisementOf(env: Env, s: Segment): Packet {
    var hs := Hashes(env, s);
    Advertise(s.header, |hs|, if |hs| > HASHMAP_MAX_LEN then hs[..HASHMAP_MAX_LEN] else hs)
  }

  function IndexIn(hs: seq<Hash>, h: Hash): (i: nat)
    ensures i <= |hs| && (i < |hs| ==> hs[i] == h) && forall k :: 0 <= k < i ==> hs[k] != h
  {
    if hs == [] || hs[0] == h then 0 else 1 + IndexIn(hs[1..], h)
  }

  /** The parts asked for, in the order asked; unknown hashes are skipped. */
  function Answer(hs: seq<Hash>, parts: seq<Part>, wanted: seq<Hash>): (sends: seq<Packet>)
    requires |hs| == |parts|
    ensures forall p | p in sends :: p.PartData? && p.part in parts
  {
    if wanted == [] then []
    else
      var i := IndexIn(hs, wanted[0]);
      (if i < |parts| then [PartData(parts[i])] else []) + Answer(hs, parts, wanted[1..])
  }

  datatype Reply = Reply(sends: seq<Packet>) | OutOfSequence(sent: seq<Packet>)

  /** A request: its parts and, if the known hashes have run out, the next piece
      of the hashmap, which must start at a multiple of HASHMAP_MAX_LEN. */
  function OnRequest(env: Env, s: Segment, q: Request): Reply {
    var parts := Answer(Hashes(env, s), Parts(s), q.wanted);
    if q.last.None? then Reply(parts)
    else
      var hs := Hashes(env, s);
      var i := IndexIn(hs, q.last.value);
      var next := if i < |hs| then i + 1 else 0;
      if next == 0 || next % HASHMAP_MAX_LEN != 0 then OutOfSequence(parts)
      else
        var end := if next + HASHMAP_MAX_LEN < |hs| then next + HASHMAP_MAX_LEN else |hs|;
        Reply(parts + [MoreHashes(q.id, next / HASHMAP_MAX_LEN, hs[next..end])])
  }
}
