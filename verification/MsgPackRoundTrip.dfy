/** Reading a packed value back, whatever octets follow it. */
module MsgPackRoundTrip {
  import opened Bytes
  import opened MsgPack

  /** A field written at a fixed width after the tag reads back. */
  lemma FixedField(tag: byte, field: seq<byte>, s: seq<byte>)
    ensures ([tag] + field + s)[0] == tag
    ensures Fixed(([tag] + field + s)[1..], |field|) == Some(Parsed(field, s))
  {
    assert ([tag] + field + s)[1..] == field + s;
    assert (field + s)[..|field|] == field && (field + s)[|field|..] == s;
  }

  lemma CountedField(tag: byte, width: nat, body: seq<byte>, s: seq<byte>)
    requires |body| < Pow256(width)
    ensures Counted(([tag] + ToBE(|body|, width) + (body + s))[1..], width) == Some(Parsed(body, s))
  {
    FixedField(tag, ToBE(|body|, width), body + s);
    FromToBE(|body|, width);
    assert (body + s)[..|body|] == body && (body + s)[|body|..] == s;
  }

  // ----- integers -----

  lemma UnsignedField(tag: byte, width: nat, n: nat, s: seq<byte>)
    requires n < Pow256(width)
    ensures AsInt(Fixed(([tag] + ToBE(n, width) + s)[1..], width), false) == Some(Parsed(Int(n), s))
  {
    FixedField(tag, ToBE(n, width), s);
    FromToBE(n, width);
  }

  lemma SignedField(tag: byte, width: nat, p: nat, i: int, s: seq<byte>)
    requires p == Pow256(width) && p % 2 == 0 && -(p / 2) <= i < 0
    ensures AsInt(Fixed(([tag] + ToBE(i + p, width) + s)[1..], width), true) == Some(Parsed(Int(i), s))
  {
    FixedField(tag, ToBE(i + p, width), s);
    FromToBE(i + p, width);
    assert Signed(i + p, p) == i;
  }

  lemma Octet(n: nat)
    requires n < 0x100
    ensures ToBE(n, 1) == [n]
  {
    assert ToBE(n / 256, 0) == [];
  }

  /** Two 32-bit halves are the 64-bit field. */
  lemma Halves(n: nat)
    requires n < 0x1_0000_0000_0000_0000
    ensures FromBE(ToBE(n / 0x1_0000_0000, 4) + ToBE(n % 0x1_0000_0000, 4)) == n
    ensures ToBE(n / 0x1_0000_0000, 4) + ToBE(n % 0x1_0000_0000, 4) == ToBE(n, 8)
  {
    Pow256Values();
    var a, b := ToBE(n / 0x1_0000_0000, 4), ToBE(n % 0x1_0000_0000, 4);
    FromToBE(n / 0x1_0000_0000, 4);
    FromToBE(n % 0x1_0000_0000, 4);
    FromBEConcat(a, b);
    ToFromBE(a + b);
  }

  lemma UnsignedRoundTrip(i: nat, s: seq<byte>)
    requires i <= 0x1f_ffff_ffff_ffff
    ensures Parse(PackInt(i) + s) == Some(Parsed(Int(i), s))
  {
    Pow256Values();
    if i < 128 {
      assert (PackInt(i) + s)[1..] == s;
    } else if i < 0x100 {
      Octet(i);
      UnsignedField(0xcc, 1, i, s);
      assert PackInt(i) == [0xcc] + ToBE(i, 1);
    } else if i < 0x1_0000 {
      UnsignedField(0xcd, 2, i, s);
    } else if i < 0x1_0000_0000 {
      UnsignedField(0xce, 4, i, s);
    } else {
      Halves(i);
      UnsignedField(0xcf, 8, i, s);
      assert PackInt(i) == [0xcf] + ToBE(i, 8);
    }
  }

  lemma LongNegative(i: int, s: seq<byte>)
    requires -0x1f_ffff_ffff_ffff <= i < -0x8000_0000
    ensures Parse(PackNegative(i) + s) == Some(Parsed(Int(i), s))
  {
    Pow256Values();
    var n := i + 0x1_0000_0000_0000_0000;
    assert n / 0x1_0000_0000 == (i / 0x1_0000_0000) % 0x1_0000_0000;
    assert n % 0x1_0000_0000 == i % 0x1_0000_0000;
    Halves(n);
    SignedField(0xd3, 8, 0x1_0000_0000_0000_0000, i, s);
    assert PackNegative(i) == [0xd3] + ToBE(n, 8);
  }

  lemma NegativeRoundTrip(i: int, s: seq<byte>)
    requires -0x1f_ffff_ffff_ffff <= i < 0
    ensures Parse(PackNegative(i) + s) == Some(Parsed(Int(i), s))
  {
    Pow256Values();
    if i >= -32 {
      assert (PackNegative(i) + s)[1..] == s;
    } else if i >= -0x80 {
      Octet(i + 0x100);
      SignedField(0xd0, 1, 0x100, i, s);
      assert PackNegative(i) == [0xd0] + ToBE(i + 0x100, 1);
    } else if i >= -0x8000 {
      SignedField(0xd1, 2, 0x1_0000, i, s);
    } else if i >= -0x8000_0000 {
      SignedField(0xd2, 4, 0x1_0000_0000, i, s);
    } else {
      LongNegative(i, s);
    }
  }

  // ----- texts, octets, doubles -----

  lemma StrRoundTrip(text: seq<byte>, s: seq<byte>)
    requires |text| < 0x1_0000_0000
    ensures Parse(Pack(Str(text)) + s) == Some(Parsed(Str(text), s))
  {
    Pow256Values();
    var n := |text|;
    var head := StrHeader(n);
    assert Pack(Str(text)) + s == head + (text + s);
    if n < 32 {
      FixedField(0xa0 + n, text, s);
      assert head + (text + s) == [0xa0 + n] + text + s;
    } else if n < 0x100 {
      Octet(n);
      CountedField(0xd9, 1, text, s);
      assert head == [0xd9] + ToBE(n, 1);
    } else if n < 0x1_0000 {
      CountedField(0xda, 2, text, s);
    } else {
      CountedField(0xdb, 4, text, s);
    }
  }

  lemma BinRoundTrip(octets: seq<byte>, s: seq<byte>)
    requires |octets| < 0x1_0000_0000
    ensures Parse(Pack(Bin(octets)) + s) == Some(Parsed(Bin(octets), s))
  {
    Pow256Values();
    var n := |octets|;
    var head := BinHeader(n);
    assert Pack(Bin(octets)) + s == head + (octets + s);
    if n < 0x100 {
      Octet(n);
      CountedField(0xc4, 1, octets, s);
      assert head == [0xc4] + ToBE(n, 1);
    } else if n < 0x1_0000 {
      CountedField(0xc5, 2, octets, s);
    } else {
      CountedField(0xc6, 4, octets, s);
    }
  }

  lemma FloatRoundTrip(bits: seq<byte>, s: seq<byte>)
    requires |bits| == 8
    ensures Parse(Pack(Float(bits)) + s) == Some(Parsed(Float(bits), s))
  {
    FixedField(0xcb, bits, s);
  }

  // ----- arrays and maps -----

  lemma ArrHeaderRead(n: nat, t: seq<byte>)
    requires n < 0x1_0000_0000
    ensures Parse(ArrHeader(n) + t) == ParseArr(t, n)
  {
    Pow256Values();
    if n < 16 {
      assert (ArrHeader(n) + t)[1..] == t;
    } else if n < 0x1_0000 {
      FixedField(0xdc, ToBE(n, 2), t);
      FromToBE(n, 2);
    } else {
      FixedField(0xdd, ToBE(n, 4), t);
      FromToBE(n, 4);
    }
  }

  lemma MapHeaderRead(n: nat, t: seq<byte>)
    requires n < 0x1_0000_0000
    ensures Parse(MapHeader(n) + t) == ParseObj(t, n)
  {
    Pow256Values();
    if n < 16 {
      assert (MapHeader(n) + t)[1..] == t;
    } else if n < 0x1_0000 {
      FixedField(0xde, ToBE(n, 2), t);
      FromToBE(n, 2);
    } else {
      FixedField(0xdf, ToBE(n, 4), t);
      FromToBE(n, 4);
    }
  }

  lemma AtomRoundTrip(v: Value, s: seq<byte>)
    requires Packable(v) && !v.Arr? && !v.Obj?
    ensures Parse(Pack(v) + s) == Some(Parsed(v, s))
  {
    match v
    case Int(i) => if i >= 0 { UnsignedRoundTrip(i, s); } else { NegativeRoundTrip(i, s); }
    case Float(bits) => FloatRoundTrip(bits, s);
    case Str(text) => StrRoundTrip(text, s);
    case Bin(octets) => BinRoundTrip(octets, s);
    case Nil => assert (Pack(v) + s)[1..] == s;
    case Bool(_) => assert (Pack(v) + s)[1..] == s;
  }

  /** Reading a packed value followed by anything gives the value and stops
      exactly where it ends. */
  lemma {:induction false} ParsePack(v: Value, s: seq<byte>)
    requires Packable(v)
    ensures Parse(Pack(v) + s) == Some(Parsed(v, s))
    decreases v
  {
    if v.Arr? {
      var n, t := |v.items|, PackAll(v.items);
      ParsePackAll(v.items, s);
      ArrHeaderRead(n, t + s);
      assert ArrHeader(n) + t + s == ArrHeader(n) + (t + s);
    } else if v.Obj? {
      var n, t := |v.entries|, PackEntries(v.entries);
      ParsePackEntries(v.entries, s);
      MapHeaderRead(n, t + s);
      assert MapHeader(n) + t + s == MapHeader(n) + (t + s);
    } else {
      AtomRoundTrip(v, s);
    }
  }

  lemma ItemsStep(x: seq<byte>, v: Value, y: seq<byte>, vs: seq<Value>, s: seq<byte>)
    requires Parse(x) == Some(Parsed(v, y)) && ParseItems(y, |vs|) == Some(Parsed(vs, s))
    ensures ParseItems(x, |vs| + 1) == Some(Parsed([v] + vs, s))
  {
  }

  lemma {:induction false} ParsePackAll(items: seq<Value>, s: seq<byte>)
    requires forall k :: 0 <= k < |items| ==> Packable(items[k])
    ensures ParseItems(PackAll(items) + s, |items|) == Some(Parsed(items, s))
    decreases items
  {
    if items == [] {
      assert PackAll(items) + s == s;
    } else {
      var y := PackAll(items[1..]) + s;
      var x := Pack(items[0]) + y;
      assert PackAll(items) + s == x;
      assert items == [items[0]] + items[1..];
      ParsePack(items[0], y);
      ParsePackAll(items[1..], s);
      ItemsStep(x, items[0], y, items[1..], s);
    }
  }

  lemma {:induction false} ParsePackEntry(e: Entry, s: seq<byte>)
    requires PackableEntry(e)
    ensures Parse(PackEntry(e) + s) == Some(Parsed(e.key, Pack(e.value) + s))
    ensures Parse(Pack(e.value) + s) == Some(Parsed(e.value, s))
    decreases e
  {
    ParsePack(e.key, Pack(e.value) + s);
    ParsePack(e.value, s);
    assert PackEntry(e) + s == Pack(e.key) + (Pack(e.value) + s);
  }

  lemma EntriesStep(x: seq<byte>, e: Entry, y: seq<byte>, z: seq<byte>, es: seq<Entry>, s: seq<byte>)
    requires Parse(x) == Some(Parsed(e.key, y)) && (e.key.Str? || e.key.Int?)
    requires Parse(y) == Some(Parsed(e.value, z)) && ParseEntries(z, |es|) == Some(Parsed(es, s))
    ensures ParseEntries(x, |es| + 1) == Some(Parsed([e] + es, s))
  {
  }

  lemma {:induction false} ParsePackEntries(entries: seq<Entry>, s: seq<byte>)
    requires forall k :: 0 <= k < |entries| ==> PackableEntry(entries[k])
    ensures ParseEntries(PackEntries(entries) + s, |entries|) == Some(Parsed(entries, s))
    decreases entries
  {
    if entries == [] {
      assert PackEntries(entries) + s == s;
    } else {
      var e, z := entries[0], PackEntries(entries[1..]) + s;
      var x := PackEntry(e) + z;
      assert PackEntries(entries) + s == x;
      assert entries == [e] + entries[1..];
      ParsePackEntry(e, z);
      ParsePackEntries(entries[1..], s);
      EntriesStep(x, e, Pack(e.value) + z, z, entries[1..], s);
    }
  }

  /** No packed value is a proper prefix of another, whatever follows either. */
  lemma PrefixFree(v: Value, w: Value, s: seq<byte>, t: seq<byte>)
    requires Packable(v) && Packable(w)
    requires Pack(v) + s == Pack(w) + t
    ensures v == w && s == t
  {
    ParsePack(v, s);
    ParsePack(w, t);
  }

  /** Equal octets mean equal values: a hash of the octets commits to the value. */
  lemma PackInjective(v: Value, w: Value)
    requires Packable(v) && Packable(w)
    ensures Pack(v) == Pack(w) <==> v == w
  {
    if Pack(v) == Pack(w) { PrefixFree(v, w, [], []); }
  }

  // ----- what is read but never written -----

  /** Single-precision numbers are read, and the tags outside the subset refused. */
  lemma OtherTags(tag: byte, bits: seq<byte>, suffix: seq<byte>)
    requires |bits| == 4
    ensures tag == 0xca ==> Parse([tag] + bits + suffix) == Some(Parsed(Float(bits), suffix))
    ensures tag == 0xc1 || 0xc7 <= tag <= 0xc9 || 0xd4 <= tag <= 0xd8 ==> Parse([tag] + suffix) == None
  {
    FixedField(tag, bits, suffix);
  }
}
