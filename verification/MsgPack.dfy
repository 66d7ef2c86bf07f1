/** The MessagePack subset the protocol hashes and signs: what is written, what
    is read back, and when the two agree. */
module MsgPack {
  import opened Bytes

  /** A text is represented by its UTF-8 octets, a double by its eight octets. */
  datatype Value =
    | Nil
    | Bool(b: bool)
    | Int(i: int)
    | Float(bits: seq<byte>)
    | Str(text: seq<byte>)
    | Bin(octets: seq<byte>)
    | Arr(items: seq<Value>)
    | Obj(entries: seq<Entry>)

  datatype Entry = Entry(key: Value, value: Value)

  // ----- writing -----

  function PackInt(i: int): seq<byte> {
    if i < 0 then PackNegative(i)
    else if i < 128 then [i]
    else if i < 0x100 then [0xcc, i]
    else if i < 0x1_0000 then [0xcd] + ToBE(i, 2)
    else if i < 0x1_0000_0000 then [0xce] + ToBE(i, 4)
    else [0xcf] + ToBE(i / 0x1_0000_0000, 4) + ToBE(i % 0x1_0000_0000, 4)
  }

  function PackNegative(i: int): seq<byte>
    requires i < 0
  {
    if i >= -32 then [i + 0x100]
    else if i >= -0x80 then [0xd0, i + 0x100]
    else if i >= -0x8000 then [0xd1] + ToBE(i + 0x1_0000, 2)
    else if i >= -0x8000_0000 then [0xd2] + ToBE(i + 0x1_0000_0000, 4)
    else [0xd3] + ToBE((i / 0x1_0000_0000) % 0x1_0000_0000, 4) + ToBE(i % 0x1_0000_0000, 4)
  }

  function StrHeader(n: nat): seq<byte> {
    if n < 32 then [0xa0 + n]
    else if n < 0x100 then [0xd9, n]
    else if n < 0x1_0000 then [0xda] + ToBE(n, 2)
    else [0xdb] + ToBE(n, 4)
  }

  function BinHeader(n: nat): seq<byte> {
    if n < 0x100 then [0xc4, n] else if n < 0x1_0000 then [0xc5] + ToBE(n, 2) else [0xc6] + ToBE(n, 4)
  }

  function ArrHeader(n: nat): seq<byte> {
    if n < 16 then [0x90 + n] else if n < 0x1_0000 then [0xdc] + ToBE(n, 2) else [0xdd] + ToBE(n, 4)
  }

  function MapHeader(n: nat): seq<byte> {
    if n < 16 then [0x80 + n] else if n < 0x1_0000 then [0xde] + ToBE(n, 2) else [0xdf] + ToBE(n, 4)
  }

  function Pack(v: Value): seq<byte>
    decreases v
  {
    match v
    case Nil => [0xc0]
    case Bool(b) => if b then [0xc3] else [0xc2]
    case Int(i) => PackInt(i)
    case Float(bits) => [0xcb] + bits
    case Str(text) => StrHeader(|text|) + text
    case Bin(octets) => BinHeader(|octets|) + octets
    case Arr(items) => ArrHeader(|items|) + PackAll(items)
    case Obj(entries) => MapHeader(|entries|) + PackEntries(entries)
  }

  function PackAll(items: seq<Value>): seq<byte>
    decreases items
  {
    if items == [] then [] else Pack(items[0]) + PackAll(items[1..])
  }

  function PackEntries(entries: seq<Entry>): seq<byte>
    decreases entries
  {
    if entries == [] then [] else PackEntry(entries[0]) + PackEntries(entries[1..])
  }

  function PackEntry(e: Entry): seq<byte>
    decreases e
  {
    Pack(e.key) + Pack(e.value)
  }

  /** Values the format can hold: safe integers, doubles of eight octets, lengths
      of 32 bits, and keys that are texts or integers. */
  predicate Packable(v: Value)
    decreases v
  {
    match v
    case Int(i) => -0x1f_ffff_ffff_ffff <= i <= 0x1f_ffff_ffff_ffff
    case Float(bits) => |bits| == 8
    case Str(text) => |text| < 0x1_0000_0000
    case Bin(octets) => |octets| < 0x1_0000_0000
    case Arr(items) => |items| < 0x1_0000_0000 && forall k :: 0 <= k < |items| ==> Packable(items[k])
    case Obj(entries) => |entries| < 0x1_0000_0000 && forall k :: 0 <= k < |entries| ==> PackableEntry(entries[k])
    case _ => true
  }

  predicate PackableEntry(e: Entry)
    decreases e
  {
    (e.key.Str? || e.key.Int?) && Packable(e.key) && Packable(e.value)
  }

  // ----- reading -----

  datatype Parsed<T> = Parsed(value: T, rest: seq<byte>)

  function Fixed(s: seq<byte>, n: nat): (r: Option<Parsed<seq<byte>>>)
    ensures r.Some? ==> |r.value.rest| <= |s|
  {
    if |s| < n then None else Some(Parsed(s[..n], s[n..]))
  }

  /** A big-endian length and then that many octets. */
  function Counted(s: seq<byte>, width: nat): (r: Option<Parsed<seq<byte>>>)
    ensures r.Some? ==> |r.value.rest| <= |s|
  {
    if |s| < width then None else Fixed(s[width..], FromBE(s[..width]))
  }

  function Signed(n: nat, modulus: nat): int { if n >= modulus / 2 then n - modulus else n }

  /** One value; None for an unsupported tag or an input that ends early. */
  function Parse(s: seq<byte>): (r: Option<Parsed<Value>>)
    ensures r.Some? ==> |r.value.rest| < |s|
    decreases |s|, 0
  {
    if s == [] then None
    else
      var tag: int, t := s[0], s[1..];
      if tag <= 0x7f then Some(Parsed(Int(tag), t))
      else if tag >= 0xe0 then Some(Parsed(Int(tag - 0x100), t))
      else if tag <= 0x8f then ParseObj(t, tag - 0x80)
      else if tag <= 0x9f then ParseArr(t, tag - 0x90)
      else if tag <= 0xbf then AsStr(Fixed(t, tag - 0xa0))
      else if tag == 0xc0 then Some(Parsed(Nil, t))
      else if tag == 0xc2 then Some(Parsed(Bool(false), t))
      else if tag == 0xc3 then Some(Parsed(Bool(true), t))
      else if tag == 0xc4 then AsBin(Counted(t, 1))
      else if tag == 0xc5 then AsBin(Counted(t, 2))
      else if tag == 0xc6 then AsBin(Counted(t, 4))
      else if tag == 0xca then AsFloat(Fixed(t, 4))
      else if tag == 0xcb then AsFloat(Fixed(t, 8))
      else if tag == 0xcc then AsInt(Fixed(t, 1), false)
      else if tag == 0xcd then AsInt(Fixed(t, 2), false)
      else if tag == 0xce then AsInt(Fixed(t, 4), false)
      else if tag == 0xcf then AsInt(Fixed(t, 8), false)
      else if tag == 0xd0 then AsInt(Fixed(t, 1), true)
      else if tag == 0xd1 then AsInt(Fixed(t, 2), true)
      else if tag == 0xd2 then AsInt(Fixed(t, 4), true)
      else if tag == 0xd3 then AsInt(Fixed(t, 8), true)
      else if tag == 0xd9 then AsStr(Counted(t, 1))
      else if tag == 0xda then AsStr(Counted(t, 2))
      else if tag == 0xdb then AsStr(Counted(t, 4))
      else if tag == 0xdc then CountedArr(t, 2)
      else if tag == 0xdd then CountedArr(t, 4)
      else if tag == 0xde then CountedObj(t, 2)
      else if tag == 0xdf then CountedObj(t, 4)
      else None
  }

  function AsStr(p: Option<Parsed<seq<byte>>>): Option<Parsed<Value>> {
    if p.None? then None else Some(Parsed(Str(p.value.value), p.value.rest))
  }

  function AsBin(p: Option<Parsed<seq<byte>>>): Option<Parsed<Value>> {
    if p.None? then None else Some(Parsed(Bin(p.value.value), p.value.rest))
  }

  function AsFloat(p: Option<Parsed<seq<byte>>>): Option<Parsed<Value>> {
    if p.None? then None else Some(Parsed(Float(p.value.value), p.value.rest))
  }

  function AsInt(p: Option<Parsed<seq<byte>>>, signed: bool): Option<Parsed<Value>> {
    if p.None? then None
    else
      var n := FromBE(p.value.value);
      Some(Parsed(Int(if signed then Signed(n, Pow256(|p.value.value|)) else n), p.value.rest))
  }

  function CountedArr(s: seq<byte>, width: nat): (r: Option<Parsed<Value>>)
    ensures r.Some? ==> |r.value.rest| <= |s|
    decreases |s|, 3
  {
    if |s| < width then None else ParseArr(s[width..], FromBE(s[..width]))
  }

  function CountedObj(s: seq<byte>, width: nat): (r: Option<Parsed<Value>>)
    ensures r.Some? ==> |r.value.rest| <= |s|
    decreases |s|, 3
  {
    if |s| < width then None else ParseObj(s[width..], FromBE(s[..width]))
  }

  function ParseArr(s: seq<byte>, n: nat): (r: Option<Parsed<Value>>)
    ensures r.Some? ==> |r.value.rest| <= |s|
    decreases |s|, 2
  {
    var items := ParseItems(s, n);
    if items.None? then None else Some(Parsed(Arr(items.value.value), items.value.rest))
  }

  function ParseItems(s: seq<byte>, n: nat): (r: Option<Parsed<seq<Value>>>)
    ensures r.Some? ==> |r.value.rest| <= |s|
    decreases |s|, 1, n
  {
    if n == 0 then Some(Parsed([], s))
    else
      var first := Parse(s);
      if first.None? then None
      else
        var others := ParseItems(first.value.rest, n - 1);
        if others.None? then None else Some(Parsed([first.value.value] + others.value.value, others.value.rest))
  }

  function ParseObj(s: seq<byte>, n: nat): (r: Option<Parsed<Value>>)
    ensures r.Some? ==> |r.value.rest| <= |s|
    decreases |s|, 2
  {
    var entries := ParseEntries(s, n);
    if entries.None? then None else Some(Parsed(Obj(entries.value.value), entries.value.rest))
  }

  /** Keys other than texts and integers are not modelled. */
  function ParseEntries(s: seq<byte>, n: nat): (r: Option<Parsed<seq<Entry>>>)
    ensures r.Some? ==> |r.value.rest| <= |s|
    decreases |s|, 1, n
  {
    if n == 0 then Some(Parsed([], s))
    else
      var key := Parse(s);
      if key.None? || !(key.value.value.Str? || key.value.value.Int?) then None
      else
        var value := Parse(key.value.rest);
        if value.None? then None
        else
          var others := ParseEntries(value.value.rest, n - 1);
          if others.None? then None
          else Some(Parsed([Entry(key.value.value, value.value.value)] + others.value.value, others.value.rest))
  }
}
