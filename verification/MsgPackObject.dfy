/** What reading gives in the program's own values: texts lose a byte order mark
    and maps become objects. */
module MsgPackObject {
  import opened Bytes
  import opened MsgPack

  /** EF BB BF at the front of a text is taken for a byte order mark. */
  predicate LedByMark(text: seq<byte>) { |text| >= 3 && text[0] == 0xef && text[1] == 0xbb && text[2] == 0xbf }

  function Unmarked(text: seq<byte>): seq<byte> { if LedByMark(text) then text[3..] else text }

  /** "__proto__", the one property name that cannot be assigned. */
  const PROTO: seq<byte> := [0x5f, 0x5f, 0x70, 0x72, 0x6f, 0x74, 0x6f, 0x5f, 0x5f]

  function Digits(n: nat): seq<byte> {
    if n < 10 then [0x30 + n] else Digits(n / 10) + [0x30 + n % 10]
  }

  /** The property name a key becomes. */
  function Name(key: Value): seq<byte>
    requires key.Str? || key.Int?
  {
    if key.Str? then key.text else if key.i >= 0 then Digits(key.i) else [0x2d] + Digits(-key.i)
  }

  /** The position of a property, or the number of properties. */
  function Find(properties: seq<Entry>, name: seq<byte>): (i: nat)
    ensures i <= |properties|
    ensures i < |properties| ==> properties[i].key == Str(name)
    ensures forall j :: 0 <= j < i ==> properties[j].key != Str(name)
  {
    if properties == [] || properties[0].key == Str(name) then 0 else 1 + Find(properties[1..], name)
  }

  /** object[name] = value: a new property goes last, an old one is overwritten. */
  function Assign(properties: seq<Entry>, name: seq<byte>, value: Value): seq<Entry> {
    var i := Find(properties, name);
    if name == PROTO then properties
    else if i < |properties| then properties[i := Entry(Str(name), value)]
    else properties + [Entry(Str(name), value)]
  }

  /** The value readValue() returns for octets that parse as `v`. */
  function Decoded(v: Value): (d: Value)
    ensures v.Str? <==> d.Str?
    ensures v.Int? <==> d.Int?
    decreases v
  {
    match v
    case Str(text) => Str(Unmarked(text))
    case Arr(items) => Arr(DecodedAll(items))
    case Obj(entries) => Obj(DecodedEntries(entries))
    case _ => v
  }

  function DecodedAll(items: seq<Value>): (ds: seq<Value>)
    ensures |ds| == |items| && forall k :: 0 <= k < |ds| ==> ds[k] == Decoded(items[k])
    decreases items
  {
    if items == [] then []
    else
      var last := |items| - 1;
      DecodedAll(items[..last]) + [Decoded(items[last])]
  }

  function DecodedEntries(entries: seq<Entry>): seq<Entry>
    decreases entries
  {
    if entries == [] then []
    else
      var last := |entries| - 1;
      AssignDecoded(DecodedEntries(entries[..last]), entries[last])
  }

  /** Keys that are neither texts nor integers are not modelled. */
  function AssignDecoded(properties: seq<Entry>, e: Entry): seq<Entry>
    decreases e
  {
    var key := Decoded(e.key);
    if key.Str? || key.Int? then Assign(properties, Name(key), Decoded(e.value)) else properties
  }

  /** No text or key is led by a mark, and the keys of every map are distinct
      texts other than "__proto__". */
  predicate Faithful(v: Value)
    decreases v
  {
    match v
    case Str(text) => !LedByMark(text)
    case Arr(items) => forall k :: 0 <= k < |items| ==> Faithful(items[k])
    case Obj(entries) =>
      && (forall k :: 0 <= k < |entries| ==> FaithfulEntry(entries[k]))
      && (forall j, k :: 0 <= j < k < |entries| ==> entries[j].key != entries[k].key)
    case _ => true
  }

  predicate FaithfulEntry(e: Entry)
    decreases e
  {
    e.key.Str? && !LedByMark(e.key.text) && e.key.text != PROTO && Faithful(e.value)
  }

  // ----- reading gives the value back exactly when it is faithful -----

  lemma {:induction false} FaithfulIsKept(v: Value)
    requires Faithful(v)
    ensures Decoded(v) == v
    decreases v
  {
    if v.Arr? {
      forall k | 0 <= k < |v.items| ensures Decoded(v.items[k]) == v.items[k] { FaithfulIsKept(v.items[k]); }
      assert DecodedAll(v.items) == v.items;
    } else if v.Obj? {
      EntriesKept(v.entries);
    }
  }

  lemma {:induction false} EntriesKept(entries: seq<Entry>)
    requires forall k :: 0 <= k < |entries| ==> FaithfulEntry(entries[k])
    requires forall j, k :: 0 <= j < k < |entries| ==> entries[j].key != entries[k].key
    ensures DecodedEntries(entries) == entries
    decreases entries
  {
    if entries != [] {
      var init, last := entries[..|entries| - 1], entries[|entries| - 1];
      EntriesKept(init);
      EntryKept(last);
      assert Find(init, last.key.text) == |init|;
      assert init + [last] == entries;
    }
  }

  lemma {:induction false} EntryKept(e: Entry)
    requires FaithfulEntry(e)
    ensures Decoded(e.key) == e.key && Decoded(e.value) == e.value
    decreases e
  {
    FaithfulIsKept(e.value);
  }

  /** Distinct texts other than "__proto__". */
  predicate ProperNames(ps: seq<Entry>) {
    && (forall k :: 0 <= k < |ps| ==> ps[k].key.Str? && ps[k].key.text != PROTO)
    && (forall j, k :: 0 <= j < k < |ps| ==> ps[j].key != ps[k].key)
  }

  lemma AssignKeepsNames(ps: seq<Entry>, name: seq<byte>, value: Value)
    requires ProperNames(ps)
    ensures ProperNames(Assign(ps, name, value))
    ensures |Assign(ps, name, value)| <= |ps| + 1
    ensures |Assign(ps, name, value)| == |ps| + 1 ==> Assign(ps, name, value) == ps + [Entry(Str(name), value)]
  {
  }

  /** The property an entry becomes when its name is new. */
  function AsProperty(e: Entry): Entry
    requires e.key.Str? || e.key.Int?
  {
    Entry(Str(Name(Decoded(e.key))), Decoded(e.value))
  }

  /** Reading never makes up properties; a map loses none only if every key is new. */
  lemma {:induction false} NoneLost(entries: seq<Entry>)
    requires forall k :: 0 <= k < |entries| ==> entries[k].key.Str? || entries[k].key.Int?
    ensures ProperNames(DecodedEntries(entries)) && |DecodedEntries(entries)| <= |entries|
    ensures |DecodedEntries(entries)| == |entries| ==>
              forall k :: 0 <= k < |entries| ==> DecodedEntries(entries)[k] == AsProperty(entries[k])
    decreases entries
  {
    if entries != [] {
      var init, last := entries[..|entries| - 1], entries[|entries| - 1];
      NoneLost(init);
      AssignKeepsNames(DecodedEntries(init), Name(Decoded(last.key)), Decoded(last.value));
    }
  }

  lemma {:induction false} KeptIsFaithful(v: Value)
    requires Packable(v) && Decoded(v) == v
    ensures Faithful(v)
    decreases v
  {
    if v.Arr? {
      forall k | 0 <= k < |v.items| ensures Faithful(v.items[k]) { KeptIsFaithful(v.items[k]); }
    } else if v.Obj? {
      var es := v.entries;
      assert forall k :: 0 <= k < |es| ==> PackableEntry(es[k]);
      NoneLost(es);
      forall k | 0 <= k < |es| ensures FaithfulEntry(es[k]) { KeptEntry(es[k]); }
    } else if v.Str? {
      assert Unmarked(v.text) == v.text;
    }
  }

  lemma {:induction false} KeptEntry(e: Entry)
    requires PackableEntry(e) && e.key.Str? && e.key.text != PROTO
    requires e == Entry(Str(Name(Decoded(e.key))), Decoded(e.value))
    ensures FaithfulEntry(e)
    decreases e
  {
    KeptIsFaithful(e.value);
    assert Unmarked(e.key.text) == e.key.text;
  }

  /** The exact condition of the round trip. */
  lemma RoundTripIffFaithful(v: Value)
    requires Packable(v)
    ensures Decoded(v) == v <==> Faithful(v)
  {
    if Decoded(v) == v { KeptIsFaithful(v); }
    if Faithful(v) { FaithfulIsKept(v); }
  }

  /** What an unfaithful value loses: the mark at the front of a text, and a
      property named "__proto__". */
  lemma MarkAndProtoAreLost(text: seq<byte>, v: Value)
    ensures Decoded(Str([0xef, 0xbb, 0xbf] + text)) == Str(text)
    ensures Decoded(Obj([Entry(Str(PROTO), v)])) == Obj([])
  {
    assert ([0xef, 0xbb, 0xbf] + text)[3..] == text;
    var es := [Entry(Str(PROTO), v)];
    assert es[..0] == [];
    assert Unmarked(PROTO) == PROTO;
    assert DecodedEntries(es) == AssignDecoded(DecodedEntries([]), es[0]);
  }
}
