/** The encoder and decoder as they run: a writer that pushes octets onto its
    output and a reader that moves an offset over its input. */
module MsgPackStream {
  import opened Bytes
  import opened MsgPack
  import opened MsgPackObject
  import opened MsgPackRoundTrip

  /** Octet `k` from the end is what remains after shifting `k` octets out. */
  lemma {:induction false} ShiftedOctet(n: nat, width: nat, k: nat)
    requires k < width
    ensures ToBE(n, width)[width - 1 - k] == n / Pow256(k) % 256
  {
    if k > 0 {
      ShiftedOctet(n / 256, width - 1, k - 1);
      ShiftTwice(n, Pow256(k - 1));
    }
  }

  lemma ShiftTwice(n: nat, p: nat)
    requires p > 0
    ensures n / 256 / p == n / (256 * p)
  {
    var q := n / 256 / p;
    assert n / 256 == p * q + n / 256 % p;
    assert n == 256 * (p * q) + 256 * (n / 256 % p) + n % 256;
    assert 256 * (p * q) == (256 * p) * q;
    assert 0 <= n - (256 * p) * q < 256 * p;
    DivUnique(n, 256 * p, q);
  }

  lemma DivUnique(n: int, m: int, q: int)
    requires m > 0 && 0 <= n - m * q < m
    ensures n / m == q
  {
    var d := n / m - q;
    assert n == m * (n / m) + n % m;
    assert m * d == m * (n / m) - m * q;
    assert d > 0 ==> m * d >= m;
    assert d < 0 ==> m * d <= -m;
  }

  lemma OneMoreItem(packed: seq<byte>, items: seq<Value>, k: nat)
    requires k < |items| && packed + PackAll(items[k..]) == PackAll(items)
    ensures packed + Pack(items[k]) + PackAll(items[k + 1..]) == PackAll(items)
  {
    assert items[k..][0] == items[k] && items[k..][1..] == items[k + 1..];
    assert packed + Pack(items[k]) + PackAll(items[k + 1..]) == packed + (Pack(items[k]) + PackAll(items[k + 1..]));
  }

  lemma OneMoreEntry(packed: seq<byte>, entries: seq<Entry>, k: nat)
    requires k < |entries| && packed + PackEntries(entries[k..]) == PackEntries(entries)
    ensures packed + PackEntry(entries[k]) + PackEntries(entries[k + 1..]) == PackEntries(entries)
  {
    assert entries[k..][0] == entries[k] && entries[k..][1..] == entries[k + 1..];
    assert packed + PackEntry(entries[k]) + PackEntries(entries[k + 1..]) == packed + (PackEntry(entries[k]) + PackEntries(entries[k + 1..]));
  }

  class Writer {
    var out: seq<byte>

    constructor ()
      ensures out == []
    {
      out := [];
    }

    method Push(octets: seq<byte>)
      modifies this
      ensures out == old(out) + octets
    {
      out := out + octets;
    }

    method PushBE(byteLength: nat, num: nat)
      requires num < 0x1_0000_0000
      modifies this
      ensures out == old(out) + ToBE(num, byteLength)
    {
      var shift := byteLength;
      while shift > 0
        invariant 0 <= shift <= byteLength
        invariant out == old(out) + ToBE(num, byteLength)[..byteLength - shift]
      {
        shift := shift - 1;
        ShiftedOctet(num, byteLength, shift);
        out := out + [num / Pow256(shift) % 256];
      }
    }

    method PushTagged(tag: byte, byteLength: nat, num: nat)
      requires num < 0x1_0000_0000
      modifies this
      ensures out == old(out) + ([tag] + ToBE(num, byteLength))
    {
      Push([tag]);
      PushBE(byteLength, num);
    }

    method WriteInt(i: int)
      requires -0x1f_ffff_ffff_ffff <= i <= 0x1f_ffff_ffff_ffff
      modifies this
      ensures out == old(out) + PackInt(i)
    {
      if i < 0 { WriteNegative(i); }
      else if i < 128 { Push([i]); }
      else if i < 0x100 { Push([0xcc, i]); }
      else if i < 0x1_0000 { PushTagged(0xcd, 2, i); }
      else if i < 0x1_0000_0000 { PushTagged(0xce, 4, i); }
      else { PushHalves(0xcf, i / 0x1_0000_0000, i % 0x1_0000_0000); }
    }

    method WriteNegative(i: int)
      requires i < 0
      modifies this
      ensures out == old(out) + PackNegative(i)
    {
      assert i >= -0x8000_0000 ==> i % 0x1_0000_0000 == i + 0x1_0000_0000;
      if i >= -32 { Push([i % 0x100]); }
      else if i >= -0x80 { Push([0xd0, i % 0x100]); }
      else if i >= -0x8000 { PushTagged(0xd1, 2, i % 0x1_0000); }
      else if i >= -0x8000_0000 { PushTagged(0xd2, 4, i % 0x1_0000_0000); }
      else { PushHalves(0xd3, (i / 0x1_0000_0000) % 0x1_0000_0000, i % 0x1_0000_0000); }
    }

    /** A tag and a 64-bit field as two 32-bit halves. */
    method PushHalves(tag: byte, high: nat, low: nat)
      requires high < 0x1_0000_0000 && low < 0x1_0000_0000
      modifies this
      ensures out == old(out) + ([tag] + ToBE(high, 4) + ToBE(low, 4))
    {
      PushTagged(tag, 4, high);
      PushBE(4, low);
    }

    method WriteString(text: seq<byte>)
      requires |text| < 0x1_0000_0000
      modifies this
      ensures out == old(out) + Pack(Str(text))
    {
      var len := |text|;
      if len < 32 { Push([0xa0 + len]); }
      else if len < 0x100 { Push([0xd9, len]); }
      else if len < 0x1_0000 { PushTagged(0xda, 2, len); }
      else { PushTagged(0xdb, 4, len); }
      Push(text);
    }

    method WriteBinary(octets: seq<byte>)
      requires |octets| < 0x1_0000_0000
      modifies this
      ensures out == old(out) + Pack(Bin(octets))
    {
      var len := |octets|;
      if len < 0x100 { Push([0xc4, len]); }
      else if len < 0x1_0000 { PushTagged(0xc5, 2, len); }
      else { PushTagged(0xc6, 4, len); }
      Push(octets);
    }

    /** The header of a collection: a short length inside the tag, a longer one
        after it. */
    method PushLength(fixedTag: byte, tag16: byte, tag32: byte, len: nat)
      requires fixedTag <= 0xf0 && len < 0x1_0000_0000
      modifies this
      ensures out == old(out) +
        (if len < 16 then [fixedTag + len] else if len < 0x1_0000 then [tag16] + ToBE(len, 2) else [tag32] + ToBE(len, 4))
    {
      if len < 16 { Push([fixedTag + len]); }
      else if len < 0x1_0000 { PushTagged(tag16, 2, len); }
      else { PushTagged(tag32, 4, len); }
    }

    method WriteArray(items: seq<Value>)
      requires Packable(Arr(items))
      modifies this
      ensures out == old(out) + Pack(Arr(items))
      decreases items, 1
    {
      PushLength(0x90, 0xdc, 0xdd, |items|);
      WriteItems(items);
      assert old(out) + ArrHeader(|items|) + PackAll(items) == old(out) + Pack(Arr(items));
    }

    method WriteItems(items: seq<Value>)
      requires forall k :: 0 <= k < |items| ==> Packable(items[k])
      modifies this
      ensures out == old(out) + PackAll(items)
      decreases items, 0
    {
      ghost var packed: seq<byte> := [];
      assert items[0..] == items && items[|items|..] == [];
      for k := 0 to |items|
        invariant out == old(out) + packed
        invariant packed + PackAll(items[k..]) == PackAll(items)
      {
        OneMoreItem(packed, items, k);
        WriteValue(items[k]);
        packed := packed + Pack(items[k]);
      }
    }

    method WriteMap(entries: seq<Entry>)
      requires Packable(Obj(entries))
      modifies this
      ensures out == old(out) + Pack(Obj(entries))
      decreases entries, 1
    {
      PushLength(0x80, 0xde, 0xdf, |entries|);
      WriteEntries(entries);
      assert old(out) + MapHeader(|entries|) + PackEntries(entries) == old(out) + Pack(Obj(entries));
    }

    method WriteEntries(entries: seq<Entry>)
      requires forall k :: 0 <= k < |entries| ==> PackableEntry(entries[k])
      modifies this
      ensures out == old(out) + PackEntries(entries)
      decreases entries, 0
    {
      ghost var packed: seq<byte> := [];
      assert entries[0..] == entries && entries[|entries|..] == [];
      for k := 0 to |entries|
        invariant out == old(out) + packed
        invariant packed + PackEntries(entries[k..]) == PackEntries(entries)
      {
        OneMoreEntry(packed, entries, k);
        WriteEntry(entries[k]);
        packed := packed + PackEntry(entries[k]);
      }
    }

    method WriteEntry(e: Entry)
      requires PackableEntry(e)
      modifies this
      ensures out == old(out) + PackEntry(e)
      decreases e
    {
      WriteValue(e.key);
      WriteValue(e.value);
    }

    /** Appends exactly the packed octets. */
    method WriteValue(v: Value)
      requires Packable(v)
      modifies this
      ensures out == old(out) + Pack(v)
      decreases v
    {
      match v
      case Nil => Push([0xc0]);
      case Bool(b) => Push([if b then 0xc3 else 0xc2]);
      case Int(i) => WriteInt(i);
      case Float(bits) => Push([0xcb]); Push(bits);
      case Str(text) => WriteString(text);
      case Bin(octets) => WriteBinary(octets);
      case Arr(items) => WriteArray(items);
      case Obj(entries) => WriteMap(entries);
    }
  }

  // ----- reading -----

  /** `raw` was read first, then what `more` says. */
  ghost function After<T>(raw: seq<T>, more: Option<Parsed<seq<T>>>): Option<Parsed<seq<T>>> {
    if more.None? then None else Some(Parsed(raw + more.value.value, more.value.rest))
  }

  lemma AfterNothing<T>(more: Option<Parsed<seq<T>>>)
    ensures After([], more) == more
  {
    if more.Some? { assert [] + more.value.value == more.value.value; }
  }

  lemma AfterTwice<T>(raw: seq<T>, x: T, more: Option<Parsed<seq<T>>>)
    ensures After(raw, After([x], more)) == After(raw + [x], more)
  {
    if more.Some? { assert raw + ([x] + more.value.value) == raw + [x] + more.value.value; }
  }

  lemma ItemsAfter(s: seq<byte>, n: nat)
    requires n > 0
    ensures Parse(s).None? ==> ParseItems(s, n).None?
    ensures Parse(s).Some? ==>
              ParseItems(s, n) == After([Parse(s).value.value], ParseItems(Parse(s).value.rest, n - 1))
  {
  }

  lemma EntriesAfter(s: seq<byte>, n: nat)
    requires n > 0
    ensures var k := Parse(s);
      if k.None? || !(k.value.value.Str? || k.value.value.Int?) || Parse(k.value.rest).None? then ParseEntries(s, n).None?
      else
        var v := Parse(k.value.rest);
        ParseEntries(s, n) == After([Entry(k.value.value, v.value.value)], ParseEntries(v.value.rest, n - 1))
  {
  }

  lemma DecodedAppend(raw: seq<Value>, v: Value)
    ensures DecodedAll(raw + [v]) == DecodedAll(raw) + [Decoded(v)]
  {
  }

  lemma DecodedEntriesAppend(raw: seq<Entry>, e: Entry)
    ensures DecodedEntries(raw + [e]) == AssignDecoded(DecodedEntries(raw), e)
  {
    assert (raw + [e])[..|raw|] == raw;
  }

  class Reader {
    const bytes: seq<byte>
    var offset: nat

    ghost function Rest(): seq<byte>
      requires offset <= |bytes|
      reads this
    {
      bytes[offset..]
    }

    constructor (bytes: seq<byte>)
      ensures this.bytes == bytes && offset == 0
    {
      this.bytes := bytes;
      offset := 0;
    }

    /** A big-endian number; None when the octets run out. */
    method ReadBE(byteLength: nat) returns (n: Option<nat>)
      requires offset <= |bytes|
      modifies this
      ensures old(offset) <= offset <= |bytes|
      ensures n.None? <==> |old(Rest())| < byteLength
      ensures n.Some? ==> n.value == FromBE(old(Rest())[..byteLength]) && Rest() == old(Rest())[byteLength..]
    {
      var value: nat := 0;
      if |bytes| - offset < byteLength { return None; }
      ghost var field := Rest()[..byteLength];
      for i := 0 to byteLength
        invariant offset == old(offset) + i
        invariant value == FromBE(field[..i])
      {
        assert field[..i + 1][..i] == field[..i] && field[..i + 1][i] == bytes[offset];
        value := value * 256 + bytes[offset];
        offset := offset + 1;
      }
      assert field[..byteLength] == field;
      return Some(value);
    }

    method ReadBytes(length: nat) returns (slice: Option<seq<byte>>)
      requires offset <= |bytes|
      modifies this
      ensures old(offset) <= offset <= |bytes|
      ensures match Fixed(old(Rest()), length)
        case None => slice.None?
        case Some(p) => slice == Some(p.value) && Rest() == p.rest
    {
      if |bytes| - offset < length { return None; }
      assert bytes[offset..offset + length] == Rest()[..length] && bytes[offset + length..] == Rest()[length..];
      slice := Some(bytes[offset..offset + length]);
      offset := offset + length;
    }

    method ReadInt(width: nat, signed: bool) returns (v: Option<Value>)
      requires offset <= |bytes|
      modifies this
      ensures old(offset) <= offset <= |bytes|
      ensures match AsInt(Fixed(old(Rest()), width), signed)
        case None => v.None?
        case Some(p) => v == Some(p.value) && Rest() == p.rest
    {
      var n := ReadBE(width);
      if n.None? { return None; }
      return Some(Int(if signed then Signed(n.value, Pow256(width)) else n.value));
    }

    method ReadArray(length: nat) returns (v: Option<Value>)
      requires offset <= |bytes|
      modifies this
      ensures old(offset) <= offset <= |bytes|
      ensures match ParseArr(old(Rest()), length)
        case None => v.None?
        case Some(p) => v == Some(Decoded(p.value)) && Rest() == p.rest
      decreases |bytes| - offset, 1
    {
      var arr: seq<Value> := [];
      ghost var raw: seq<Value> := [];
      ghost var s := Rest();
      AfterNothing(ParseItems(s, length));
      for i := 0 to length
        invariant old(offset) <= offset <= |bytes|
        invariant arr == DecodedAll(raw)
        invariant ParseItems(s, length) == After(raw, ParseItems(Rest(), length - i))
      {
        ItemsAfter(Rest(), length - i);
        ghost var first := Parse(Rest());
        var item := ReadValue();
        if item.None? { return None; }
        AfterTwice(raw, first.value.value, ParseItems(Rest(), length - i - 1));
        DecodedAppend(raw, first.value.value);
        arr := arr + [item.value];
        raw := raw + [first.value.value];
      }
      assert raw + [] == raw;
      return Some(Arr(arr));
    }

    method ReadMap(length: nat) returns (v: Option<Value>)
      requires offset <= |bytes|
      modifies this
      ensures old(offset) <= offset <= |bytes|
      ensures match ParseObj(old(Rest()), length)
        case None => v.None?
        case Some(p) => v == Some(Decoded(p.value)) && Rest() == p.rest
      decreases |bytes| - offset, 1
    {
      var obj: seq<Entry> := [];
      ghost var raw: seq<Entry> := [];
      ghost var s := Rest();
      AfterNothing(ParseEntries(s, length));
      for i := 0 to length
        invariant old(offset) <= offset <= |bytes|
        invariant obj == DecodedEntries(raw)
        invariant ParseEntries(s, length) == After(raw, ParseEntries(Rest(), length - i))
      {
        EntriesAfter(Rest(), length - i);
        ghost var k := Parse(Rest());
        var key := ReadValue();
        if key.None? || !(key.value.Str? || key.value.Int?) { return None; }
        ghost var w := Parse(Rest());
        var value := ReadValue();
        if value.None? { return None; }
        ghost var e := Entry(k.value.value, w.value.value);
        AfterTwice(raw, e, ParseEntries(Rest(), length - i - 1));
        DecodedEntriesAppend(raw, e);
        obj := Assign(obj, Name(key.value), value.value);
        raw := raw + [e];
      }
      assert raw + [] == raw;
      return Some(Obj(obj));
    }

    method ReadString(length: nat) returns (v: Option<Value>)
      requires offset <= |bytes|
      modifies this
      ensures old(offset) <= offset <= |bytes|
      ensures match AsStr(Fixed(old(Rest()), length))
        case None => v.None?
        case Some(p) => v == Some(Decoded(p.value)) && Rest() == p.rest
    {
      var text := ReadBytes(length);
      if text.None? { return None; }
      return Some(Str(Unmarked(text.value)));
    }

    method ReadFloat(length: nat) returns (v: Option<Value>)
      requires offset <= |bytes|
      modifies this
      ensures old(offset) <= offset <= |bytes|
      ensures match AsFloat(Fixed(old(Rest()), length))
        case None => v.None?
        case Some(p) => v == Some(Decoded(p.value)) && Rest() == p.rest
    {
      var bits := ReadBytes(length);
      if bits.None? { return None; }
      return Some(Float(bits.value));
    }

    method ReadBinary(width: nat) returns (v: Option<Value>)
      requires offset <= |bytes|
      modifies this
      ensures old(offset) <= offset <= |bytes|
      ensures match AsBin(Counted(old(Rest()), width))
        case None => v.None?
        case Some(p) => v == Some(Decoded(p.value)) && Rest() == p.rest
    {
      var n := ReadBE(width);
      if n.None? { return None; }
      var octets := ReadBytes(n.value);
      if octets.None? { return None; }
      return Some(Bin(octets.value));
    }

    method ReadCountedString(width: nat) returns (v: Option<Value>)
      requires offset <= |bytes|
      modifies this
      ensures old(offset) <= offset <= |bytes|
      ensures match AsStr(Counted(old(Rest()), width))
        case None => v.None?
        case Some(p) => v == Some(Decoded(p.value)) && Rest() == p.rest
    {
      var n := ReadBE(width);
      if n.None? { return None; }
      v := ReadString(n.value);
    }

    method ReadCountedArray(width: nat) returns (v: Option<Value>)
      requires offset <= |bytes|
      modifies this
      ensures old(offset) <= offset <= |bytes|
      ensures match CountedArr(old(Rest()), width)
        case None => v.None?
        case Some(p) => v == Some(Decoded(p.value)) && Rest() == p.rest
      decreases |bytes| - offset, 2
    {
      var n := ReadBE(width);
      if n.None? { return None; }
      v := ReadArray(n.value);
    }

    method ReadCountedMap(width: nat) returns (v: Option<Value>)
      requires offset <= |bytes|
      modifies this
      ensures old(offset) <= offset <= |bytes|
      ensures match CountedObj(old(Rest()), width)
        case None => v.None?
        case Some(p) => v == Some(Decoded(p.value)) && Rest() == p.rest
      decreases |bytes| - offset, 2
    {
      var n := ReadBE(width);
      if n.None? { return None; }
      v := ReadMap(n.value);
    }

    /** Exactly the value the octets parse as, as an object of the program, and
        the offset just after it. */
    method ReadValue() returns (v: Option<Value>)
      requires offset <= |bytes|
      modifies this
      ensures old(offset) <= offset <= |bytes|
      ensures v.Some? ==> old(offset) < offset
      ensures match Parse(old(Rest()))
        case None => v.None?
        case Some(p) => v == Some(Decoded(p.value)) && Rest() == p.rest
      decreases |bytes| - offset, 0
    {
      if offset == |bytes| { return None; }
      var tag: int := bytes[offset];
      offset := offset + 1;
      assert Rest() == old(Rest())[1..];
      if tag <= 0x7f { return Some(Int(tag)); }
      if tag >= 0xe0 { return Some(Int(tag - 0x100)); }
      if tag <= 0x8f { v := ReadMap(tag - 0x80); return; }
      if tag <= 0x9f { v := ReadArray(tag - 0x90); return; }
      if tag <= 0xbf { v := ReadString(tag - 0xa0); return; }
      match tag
      case 0xc0 => v := Some(Nil);
      case 0xc2 => v := Some(Bool(false));
      case 0xc3 => v := Some(Bool(true));
      case 0xc4 => v := ReadBinary(1);
      case 0xc5 => v := ReadBinary(2);
      case 0xc6 => v := ReadBinary(4);
      case 0xca => v := ReadFloat(4);
      case 0xcb => v := ReadFloat(8);
      case 0xcc => v := ReadInt(1, false);
      case 0xcd => v := ReadInt(2, false);
      case 0xce => v := ReadInt(4, false);
      case 0xcf => v := ReadInt(8, false);
      case 0xd0 => v := ReadInt(1, true);
      case 0xd1 => v := ReadInt(2, true);
      case 0xd2 => v := ReadInt(4, true);
      case 0xd3 => v := ReadInt(8, true);
      case 0xd9 => v := ReadCountedString(1);
      case 0xda => v := ReadCountedString(2);
      case 0xdb => v := ReadCountedString(4);
      case 0xdc => v := ReadCountedArray(2);
      case 0xdd => v := ReadCountedArray(4);
      case 0xde => v := ReadCountedMap(2);
      case 0xdf => v := ReadCountedMap(4);
      case _ => v := None;
    }
  }

  /** pack() and then unpack(): the value comes back exactly when it is faithful,
      and reading stops where packing ended, whatever follows. */
  method PackThenUnpack(v: Value, suffix: seq<byte>) returns (back: Option<Value>, consumed: nat)
    requires Packable(v)
    ensures back == Some(v) <==> Faithful(v)
    ensures back == Some(Decoded(v)) && consumed == |Pack(v)|
  {
    var writer := new Writer();
    writer.WriteValue(v);
    assert writer.out == Pack(v);
    var reader := new Reader(writer.out + suffix);
    ParsePack(v, suffix);
    assert reader.Rest() == Pack(v) + suffix;
    back := reader.ReadValue();
    assert |reader.Rest()| == |suffix|;
    consumed := reader.offset;
    RoundTripIffFaithful(v);
  }
}
