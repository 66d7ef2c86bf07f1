/** HDLC-style framing of packets on a byte stream (octet stuffing as in section
    4.2 of RFC 1662, without a check sequence) and its incremental decoder. */
module Hdlc {
  import opened Bytes

  const FLAG: byte := 0x7e
  const ESC: byte := 0x7d
  const ESC_MASK := 0x20

  /** Exclusive or with ESC_MASK, which is a single bit. */
  function Masked(b: byte): byte { if b / ESC_MASK % 2 == 1 then b - ESC_MASK else b + ESC_MASK }

  // ----- framing -----

  function EscapeOctet(b: byte): seq<byte> { if b == ESC || b == FLAG then [ESC, Masked(b)] else [b] }

  function Escape(data: seq<byte>): seq<byte> {
    if data == [] then [] else EscapeOctet(data[0]) + Escape(data[1..])
  }

  function Frame(data: seq<byte>): seq<byte> { [FLAG] + (Escape(data) + [FLAG]) }

  function Unescape(s: seq<byte>): seq<byte> {
    if s == [] then []
    else if s[0] == ESC && |s| > 1 then [Masked(s[1])] + Unescape(s[2..])
    else [s[0]] + Unescape(s[1..])
  }

  lemma OctetRoundTrip(b: byte, rest: seq<byte>)
    ensures Unescape(EscapeOctet(b) + rest) == [b] + Unescape(rest)
  {
    var e := EscapeOctet(b);
    assert (e + rest)[|e|..] == rest;
    assert Masked(Masked(ESC)) == ESC && Masked(Masked(FLAG)) == FLAG;
  }

  /** Escaped data has no flag, is empty only for no data, and unescapes to the data. */
  lemma {:induction false} EscapeRoundTrip(data: seq<byte>)
    ensures Unescape(Escape(data)) == data
    ensures FLAG !in Escape(data) && (Escape(data) == [] <==> data == [])
  {
    if data != [] {
      EscapeRoundTrip(data[1..]);
      OctetRoundTrip(data[0], Escape(data[1..]));
      assert FLAG !in EscapeOctet(data[0]);
    }
  }

  lemma EscapeStep(data: seq<byte>, i: nat, done: seq<byte>)
    requires i < |data| && done + Escape(data[i..]) == Escape(data)
    ensures done + EscapeOctet(data[i]) + Escape(data[i + 1..]) == Escape(data)
  {
    assert data[i..][0] == data[i] && data[i..][1..] == data[i + 1..];
    assert done + EscapeOctet(data[i]) + Escape(data[i + 1..]) == done + (EscapeOctet(data[i]) + Escape(data[i + 1..]));
  }

  method HdlcFrame(data: seq<byte>) returns (framed: seq<byte>)
    ensures framed == Frame(data)
  {
    var escaped: seq<byte> := [];
    assert data[0..] == data;
    for i := 0 to |data|
      invariant escaped + Escape(data[i..]) == Escape(data)
    {
      EscapeStep(data, i, escaped);
      if data[i] == ESC { escaped := escaped + [ESC, Masked(ESC)]; }
      else if data[i] == FLAG { escaped := escaped + [ESC, Masked(FLAG)]; }
      else { escaped := escaped + [data[i]]; }
    }
    assert escaped + [] == escaped;
    framed := [FLAG] + (escaped + [FLAG]);
  }

  method HdlcUnescape(frame: seq<byte>) returns (out: seq<byte>)
    ensures out == Unescape(frame)
  {
    out := [];
    var i := 0;
    assert frame[0..] == frame;
    while i < |frame|
      invariant 0 <= i <= |frame|
      invariant out + Unescape(frame[i..]) == Unescape(frame)
    {
      assert frame[i..][0] == frame[i] && frame[i..][1..] == frame[i + 1..];
      if frame[i] == ESC && i + 1 < |frame| {
        assert frame[i..][1] == frame[i + 1] && frame[i..][2..] == frame[i + 2..];
        out := out + [Masked(frame[i + 1])];
        i := i + 1;
      } else {
        out := out + [frame[i]];
      }
      i := i + 1;
    }
    assert out + [] == out;
  }

  // ----- decoding -----

  /** The position of the first flag from `i` on, or the length. */
  function IndexOf(s: seq<byte>, i: nat): (r: nat)
    requires i <= |s|
    ensures i <= r <= |s| && (r < |s| ==> s[r] == FLAG)
    ensures forall k :: i <= k < r ==> s[k] != FLAG
    decreases |s| - i
  {
    if i == |s| || s[i] == FLAG then i else IndexOf(s, i + 1)
  }

  datatype Decoding = Decoding(frames: seq<seq<byte>>, buffer: seq<byte>)

  /** The complete frames in a buffer and what stays in it: the flag that closed
      the last frame stays, since it may open the next. */
  function Decode(s: seq<byte>): Decoding
    decreases |s|
  {
    var start := IndexOf(s, 0);
    if start == |s| then Decoding([], s)
    else
      var end := IndexOf(s, start + 1);
      if end == |s| then Decoding([], s)
      else
        After(NonEmpty(s[start + 1..end]), Decode(s[end..]))
  }

  /** `frames` came first, then what `d` says. */
  function After(frames: seq<seq<byte>>, d: Decoding): Decoding { d.(frames := frames + d.frames) }

  lemma AfterNothing(d: Decoding)
    ensures After([], d) == d
  {
  }

  lemma AfterTwice(f: seq<seq<byte>>, g: seq<seq<byte>>, d: Decoding)
    ensures After(f, After(g, d)) == After(f + g, d)
  {
    assert f + (g + d.frames) == f + g + d.frames;
  }

  /** A frame, unless there is nothing between its flags. */
  function NonEmpty(raw: seq<byte>): seq<seq<byte>> { if raw == [] then [] else [Unescape(raw)] }

  lemma IndexIs(s: seq<byte>, i: nat, r: nat)
    requires i <= r < |s| && s[r] == FLAG && forall k :: i <= k < r ==> s[k] != FLAG
    ensures IndexOf(s, i) == r
  {
  }

  lemma DecodeStep(s: seq<byte>, start: nat, end: nat)
    requires start < end < |s| && s[start] == FLAG && s[end] == FLAG
    requires forall k :: 0 <= k < end && k != start ==> s[k] != FLAG
    ensures Decode(s) == After(NonEmpty(s[start + 1..end]), Decode(s[end..]))
  {
    IndexIs(s, 0, start);
    IndexIs(s, start + 1, end);
  }

  /** Fewer than two flags: nothing is complete. */
  predicate Incomplete(s: seq<byte>) {
    var start := IndexOf(s, 0);
    start == |s| || IndexOf(s, start + 1) == |s|
  }

  /** Octets arriving later change nothing about what came before: decoding `a`
      and then what is left with `b` is decoding `a + b`. */
  lemma {:induction false} DecodeContinues(a: seq<byte>, b: seq<byte>)
    ensures Decode(a + b) == After(Decode(a).frames, Decode(Decode(a).buffer + b))
    decreases |a|
  {
    if Incomplete(a) {
      assert Decode(a) == Decoding([], a);
      AfterNothing(Decode(a + b));
    } else {
      var start := IndexOf(a, 0);
      var end := IndexOf(a, start + 1);
      var raw, rest := a[start + 1..end], a[end..];
      DecodeContinues(rest, b);
      FirstFrame(a, b, start, end);
      AfterTwice(NonEmpty(raw), Decode(rest).frames, Decode(Decode(rest).buffer + b));
    }
  }

  lemma FirstFrame(a: seq<byte>, b: seq<byte>, start: nat, end: nat)
    requires start < end < |a| && a[start] == FLAG && a[end] == FLAG
    requires forall k :: 0 <= k < end && k != start ==> a[k] != FLAG
    ensures Decode(a) == After(NonEmpty(a[start + 1..end]), Decode(a[end..]))
    ensures Decode(a + b) == After(NonEmpty(a[start + 1..end]), Decode(a[end..] + b))
  {
    var c := a + b;
    assert c[end..] == a[end..] + b && c[start + 1..end] == a[start + 1..end];
    DecodeStep(a, start, end);
    DecodeStep(c, start, end);
  }

  lemma NoFrame(all: seq<byte>, frames: seq<seq<byte>>, s: seq<byte>)
    requires Incomplete(s) && Decode(all) == After(frames, Decode(s))
    ensures Decode(all) == Decoding(frames, s)
  {
    assert frames + [] == frames;
  }

  class HdlcFrameDecoder {
    var buffer: seq<byte>

    constructor ()
      ensures buffer == []
    {
      buffer := [];
    }

    /** Cuts the first complete frame off the buffer, if there is one. */
    method NextFrame() returns (found: bool, raw: seq<byte>)
      modifies this
      ensures found <==> !Incomplete(old(buffer))
      ensures found ==> Decode(old(buffer)) == After(NonEmpty(raw), Decode(buffer)) && |buffer| < |old(buffer)|
      ensures !found ==> buffer == old(buffer)
    {
      var start := IndexOf(buffer, 0);
      if start == |buffer| { return false, []; }
      var end := IndexOf(buffer, start + 1);
      if end == |buffer| { return false, []; }
      raw := buffer[start + 1..end];
      buffer := buffer[end..];
      found := true;
    }

    /** The frames completed by `chunk`. */
    method Push(chunk: seq<byte>) returns (frames: seq<seq<byte>>)
      modifies this
      ensures Decoding(frames, buffer) == Decode(old(buffer) + chunk)
    {
      buffer := buffer + chunk;
      ghost var all := buffer;
      frames := [];
      AfterNothing(Decode(all));
      while true
        invariant Decode(all) == After(frames, Decode(buffer))
        decreases |buffer|
      {
        var found, raw := NextFrame();
        if !found { break; }
        AfterTwice(frames, NonEmpty(raw), Decode(buffer));
        if |raw| > 0 {
          var frame := HdlcUnescape(raw);
          frames := frames + [frame];
        } else {
          assert frames + [] == frames;
        }
      }
      NoFrame(all, frames, buffer);
    }

    /** A whole stream, chunk by chunk. */
    method PushAll(chunks: seq<seq<byte>>) returns (frames: seq<seq<byte>>)
      modifies this
      ensures Decoding(frames, buffer) == Pushed(Decoding([], old(buffer)), chunks)
    {
      frames := [];
      for i := 0 to |chunks|
        invariant Decoding(frames, buffer) == Pushed(Decoding([], old(buffer)), chunks[..i])
      {
        assert chunks[..i + 1][..i] == chunks[..i];
        var more := Push(chunks[i]);
        frames := frames + more;
      }
      assert chunks[..|chunks|] == chunks;
    }
  }

  // ----- any cutting of the stream -----

  /** What a decoder has put out and kept after `chunks`. */
  function Pushed(d: Decoding, chunks: seq<seq<byte>>): Decoding {
    if chunks == [] then d
    else
      var before := Pushed(d, chunks[..|chunks| - 1]);
      After(before.frames, Decode(before.buffer + chunks[|chunks| - 1]))
  }

  /** How the stream is cut does not matter. */
  lemma {:induction false} CuttingIsFree(chunks: seq<seq<byte>>)
    ensures Pushed(Decoding([], []), chunks) == Decode(Join(chunks))
  {
    if chunks == [] {
      assert IndexOf([], 0) == 0;
    } else {
      var init, last := chunks[..|chunks| - 1], chunks[|chunks| - 1];
      CuttingIsFree(init);
      DecodeContinues(Join(init), last);
      JoinAppend(init, last);
      assert chunks == init + [last];
    }
  }

  function Framed(payloads: seq<seq<byte>>): seq<byte> {
    if payloads == [] then [] else Frame(payloads[0]) + Framed(payloads[1..])
  }

  /** The payload, unless it is empty. */
  function Delivered(p: seq<byte>): seq<seq<byte>> { if p == [] then [] else [p] }

  /** The payloads that are not empty. */
  function Proper(payloads: seq<seq<byte>>): seq<seq<byte>> {
    if payloads == [] then [] else Delivered(payloads[0]) + Proper(payloads[1..])
  }

  /** A frame behind flagless octets: its payload, and its last flag stays. */
  lemma FrameDecodes(noise: seq<byte>, p: seq<byte>, s: seq<byte>)
    requires FLAG !in noise
    ensures Decode(noise + (Frame(p) + s)) == After(Delivered(p), Decode([FLAG] + s))
  {
    EscapeRoundTrip(p);
    var e := Escape(p);
    var t, end := noise + [FLAG] + e + ([FLAG] + s), |noise| + 1 + |e|;
    BetweenFlags(noise, e, s);
    DecodeStep(t, |noise|, end);
    assert NonEmpty(e) == Delivered(p);
    Regrouped(noise, e, s);
  }

  lemma Regrouped(noise: seq<byte>, e: seq<byte>, s: seq<byte>)
    ensures noise + ([FLAG] + (e + [FLAG]) + s) == noise + [FLAG] + e + ([FLAG] + s)
  {
  }

  lemma BetweenFlags(noise: seq<byte>, e: seq<byte>, s: seq<byte>)
    requires FLAG !in noise && FLAG !in e
    ensures var t, end := noise + [FLAG] + e + ([FLAG] + s), |noise| + 1 + |e|;
      && t[|noise|] == FLAG && t[end] == FLAG && t[|noise| + 1..end] == e && t[end..] == [FLAG] + s
      && forall k :: 0 <= k < end && k != |noise| ==> t[k] != FLAG
  {
    var t, end := noise + [FLAG] + e + ([FLAG] + s), |noise| + 1 + |e|;
    forall k | 0 <= k < end && k != |noise| ensures t[k] != FLAG {
      assert if k < |noise| then t[k] == noise[k] else t[k] == e[k - |noise| - 1];
    }
  }

  lemma FlagThenFrame(p: seq<byte>, s: seq<byte>)
    ensures Decode([FLAG] + (Frame(p) + s)) == After(Delivered(p), Decode([FLAG] + s))
  {
    var u := Frame(p) + s;
    var t := [FLAG] + u;
    assert t[1..1] == [] && t[1..] == u && t[1] == FLAG;
    DecodeStep(t, 0, 1);
    AfterNothing(Decode(u));
    FrameDecodes([], p, s);
    assert [] + u == u;
  }

  lemma {:induction false} FramesAfterFlag(payloads: seq<seq<byte>>)
    ensures Decode([FLAG] + Framed(payloads)) == Decoding(Proper(payloads), [FLAG])
    decreases |payloads|
  {
    if payloads == [] {
      IndexIs([FLAG], 0, 0);
      assert [FLAG] + [] == [FLAG];
    } else {
      FramesAfterFlag(payloads[1..]);
      FlagThenFrame(payloads[0], Framed(payloads[1..]));
    }
  }

  /** Whatever flagless octets come first, and however the framed payloads are cut
      into chunks, the decoder puts out exactly the payloads that are not empty. */
  lemma StreamRoundTrip(noise: seq<byte>, payloads: seq<seq<byte>>, chunks: seq<seq<byte>>)
    requires FLAG !in noise && Join(chunks) == noise + Framed(payloads)
    ensures Pushed(Decoding([], []), chunks).frames == Proper(payloads)
    ensures [] !in payloads ==> Pushed(Decoding([], []), chunks).frames == payloads
  {
    CuttingIsFree(chunks);
    NothingSkipped(payloads);
    if payloads == [] {
      assert noise + [] == noise && IndexOf(noise, 0) == |noise|;
    } else {
      FramesAfterNoise(noise, payloads);
    }
  }

  lemma FramesAfterNoise(noise: seq<byte>, payloads: seq<seq<byte>>)
    requires FLAG !in noise && payloads != []
    ensures Decode(noise + Framed(payloads)).frames == Proper(payloads)
  {
    FrameDecodes(noise, payloads[0], Framed(payloads[1..]));
    FramesAfterFlag(payloads[1..]);
  }

  /** With no empty payload nothing is skipped. */
  lemma {:induction false} NothingSkipped(payloads: seq<seq<byte>>)
    ensures [] !in payloads ==> Proper(payloads) == payloads
  {
    if payloads != [] {
      NothingSkipped(payloads[1..]);
      assert payloads == [payloads[0]] + payloads[1..];
    }
  }
}
