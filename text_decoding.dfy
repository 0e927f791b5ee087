/** `TextDecoder` for UTF-8 as the client uses it: `new TextDecoder()` (replacement
    error mode, BOM not ignored) fed one chunk at a time with `{ stream: true }` and
    never flushed. The byte handler is the UTF-8 decoder of the WHATWG Encoding Standard. */
module TextDecoding {
  import opened Utf8

  const Replacement: char := '\U{FFFD}'
  const ByteOrderMark: char := '\U{FEFF}'

  /** The UTF-8 decoder's variables: code point, bytes seen, bytes needed and the
      bounds on the next continuation byte. */
  datatype Utf8Decoder = Utf8Decoder(
    codePoint: int, bytesSeen: int, bytesNeeded: int, lowerBoundary: int, upperBoundary: int)

  const Fresh: Utf8Decoder := Utf8Decoder(0, 0, 0, 0x80, 0xBF)

  /** Smallest and largest code point the pending sequence can still complete to. */
  ghost function MinCompletion(d: Utf8Decoder): int {
    var lo := d.codePoint * 64 + (d.lowerBoundary - 0x80);
    var r := d.bytesNeeded - d.bytesSeen;
    if r == 1 then lo else if r == 2 then lo * 64 else lo * 4096
  }

  ghost function MaxCompletion(d: Utf8Decoder): int {
    var hi := d.codePoint * 64 + (d.upperBoundary - 0x80);
    var r := d.bytesNeeded - d.bytesSeen;
    if r == 1 then hi else if r == 2 then hi * 64 + 63 else hi * 4096 + 4095
  }

  /** The decoder is either between sequences, or inside a sequence every completion
      of which is a Unicode scalar value (no surrogate, nothing above U+10FFFF). */
  ghost predicate Valid(d: Utf8Decoder) {
    if d.bytesNeeded == 0 then d == Fresh
    else
      && 1 <= d.bytesNeeded <= 3 && 0 <= d.bytesSeen < d.bytesNeeded
      && 0 <= d.codePoint
      && 0x80 <= d.lowerBoundary <= d.upperBoundary <= 0xBF
      && (MaxCompletion(d) < 0xD800 || (0xE000 <= MinCompletion(d) && MaxCompletion(d) <= 0x10FFFF))
  }

  /** A byte read while no sequence is pending. */
  function LeadByte(b: byte): (r: (Utf8Decoder, seq<char>))
    ensures Valid(r.0)
    ensures |r.1| <= 1
    ensures r.1 == [] <==> 0xC2 <= b <= 0xF4
  {
    if b <= 0x7F then (Fresh, [b as char])
    else if 0xC2 <= b <= 0xDF then
      (Utf8Decoder(b - 0xC0, 0, 1, 0x80, 0xBF), [])
    else if 0xE0 <= b <= 0xEF then
      (Utf8Decoder(b - 0xE0, 0, 2, if b == 0xE0 then 0xA0 else 0x80, if b == 0xED then 0x9F else 0xBF), [])
    else if 0xF0 <= b <= 0xF4 then
      (Utf8Decoder(b - 0xF0, 0, 3, if b == 0xF0 then 0x90 else 0x80, if b == 0xF4 then 0x8F else 0xBF), [])
    else (Fresh, [Replacement])
  }

  /** The decoder's handler for one byte: the scalar values it emits (an error emits
      U+FFFD; a byte out of the expected range is then read again as a lead byte). */
  function Step(d: Utf8Decoder, b: byte): (r: (Utf8Decoder, seq<char>))
    requires Valid(d)
    ensures Valid(r.0)
    ensures |r.1| <= 2
  {
    if d.bytesNeeded == 0 then LeadByte(b)
    else if b < d.lowerBoundary || d.upperBoundary < b then
      var (d', out) := LeadByte(b);
      (d', [Replacement] + out)
    else
      var cp := d.codePoint * 64 + (b - 0x80);
      if d.bytesSeen + 1 == d.bytesNeeded then (Fresh, [cp as char])
      else (Utf8Decoder(cp, d.bytesSeen + 1, d.bytesNeeded, 0x80, 0xBF), [])
  }

  /** Feeding bytes one after another to the handler. */
  function Run(d: Utf8Decoder, bytes: seq<byte>): (r: (Utf8Decoder, seq<char>))
    requires Valid(d)
    ensures Valid(r.0)
    ensures |r.1| <= 2 * |bytes|
    decreases |bytes|
  {
    if bytes == [] then (d, [])
    else
      var (d1, out1) := Step(d, bytes[0]);
      var (d2, out2) := Run(d1, bytes[1..]);
      (d2, out1 + out2)
  }

  /** The handler carries its state across the split, so splitting the bytes anywhere
      does not change what is emitted. */
  lemma {:induction false} RunAppend(d: Utf8Decoder, a: seq<byte>, b: seq<byte>)
    requires Valid(d)
    ensures Run(d, a + b).0 == Run(Run(d, a).0, b).0
    ensures Run(d, a + b).1 == Run(d, a).1 + Run(Run(d, a).0, b).1
    decreases |a|
  {
    if a == [] {
      assert a + b == b;
    } else {
      assert (a + b)[0] == a[0];
      assert (a + b)[1..] == a[1..] + b;
      RunAppend(Step(d, a[0]).0, a[1..], b);
    }
  }

  /** Feeding one more byte. */
  lemma RunSnoc(d: Utf8Decoder, a: seq<byte>, b: byte)
    requires Valid(d)
    ensures Run(d, a + [b]).0 == Step(Run(d, a).0, b).0
    ensures Run(d, a + [b]).1 == Run(d, a).1 + Step(Run(d, a).0, b).1
  {
    RunAppend(d, a, [b]);
    var d1 := Run(d, a).0;
    assert [b][1..] == [];
    assert Run(d1, [b]) == (Step(d1, b).0, Step(d1, b).1 + []);
  }

  /** The handler's passage through the encoding of one character: every proper prefix
      is held back without output, and the whole encoding yields the character and
      returns to the resting state. */
  lemma EncodedCharSteps(c: char)
    ensures forall k :: 0 <= k < |EncodeChar(c)| ==> Run(Fresh, EncodeChar(c)[..k]).1 == []
    ensures Run(Fresh, EncodeChar(c)) == (Fresh, [c])
  {
    var n := c as int;
    var e := EncodeChar(c);
    assert e[..0] == [];
    assert Run(Fresh, []) == (Fresh, []);
    if n < 0x80 {
      assert e == [] + [e[0]];
      RunSnoc(Fresh, [], e[0]);
      assert Step(Fresh, e[0]) == (Fresh, [c]);
      assert Run(Fresh, e).0 == Fresh && Run(Fresh, e).1 == [c];
    } else if n < 0x800 {
      TwoByteSteps(c);
    } else if n < 0x10000 {
      ThreeByteSteps(c);
    } else {
      FourByteSteps(c);
    }
  }

  lemma TwoByteSteps(c: char)
    requires 0x80 <= c as int < 0x800
    ensures Run(Fresh, EncodeChar(c)[..1]).1 == []
    ensures Run(Fresh, EncodeChar(c)) == (Fresh, [c])
  {
    var n := c as int;
    var e := EncodeChar(c);
    var d1 := Utf8Decoder(n / 64, 0, 1, 0x80, 0xBF);
    assert e[..1] == [] + [e[0]];
    RunSnoc(Fresh, [], e[0]);
    assert Run(Fresh, []) == (Fresh, []);
    assert Step(Fresh, e[0]) == (d1, []);
    assert e == e[..1] + [e[1]];
    RunSnoc(Fresh, e[..1], e[1]);
    assert Step(d1, e[1]) == (Fresh, [c]);
    assert Run(Fresh, e).0 == Fresh && Run(Fresh, e).1 == [c];
  }

  /** `n` written in base 64, the six-bit groups a multi-byte encoding carries. */
  lemma SixBitGroups(n: nat)
    ensures n % 64 < 64 && (n / 64) % 64 < 64 && (n / 4096) % 64 < 64
    ensures n == (n / 64) * 64 + n % 64
    ensures n / 64 == (n / 4096) * 64 + (n / 64) % 64
    ensures n / 4096 == (n / 262144) * 64 + (n / 4096) % 64
  {
    var a := n / 64;
    var b := a / 64;
    var c := b / 64;
    assert n == a * 64 + n % 64;
    assert a == b * 64 + a % 64;
    assert b == c * 64 + b % 64;
    assert n == b * 4096 + (a % 64) * 64 + n % 64;
    assert n / 4096 == b;
    assert n == c * 262144 + (b % 64) * 4096 + (a % 64) * 64 + n % 64;
    assert n / 262144 == c;
  }

  lemma ThreeByteSteps(c: char)
    requires 0x800 <= c as int < 0x10000
    ensures Run(Fresh, EncodeChar(c)[..1]).1 == []
    ensures Run(Fresh, EncodeChar(c)[..2]).1 == []
    ensures Run(Fresh, EncodeChar(c)) == (Fresh, [c])
  {
    var n := c as int;
    SixBitGroups(n);
    var q, m, l := n / 4096, (n / 64) % 64, n % 64;
    assert n == q * 4096 + m * 64 + l;
    var e := EncodeChar(c);
    assert e == [0xE0 + q, 0x80 + m, 0x80 + l];
    var t1 := Step(Fresh, e[0]);
    assert t1 == (Utf8Decoder(q, 0, 2, if q == 0 then 0xA0 else 0x80, if q == 13 then 0x9F else 0xBF), []);
    StepContinues(t1.0, e[1]);
    var t2 := Step(t1.0, e[1]);
    StepCompletes(t2.0, e[2]);
    var t3 := Step(t2.0, e[2]);
    assert t3.1 == [c];
    RunOfThree(e);
    assert Run(Fresh, e).0 == Fresh && Run(Fresh, e).1 == [c];
  }

  /** The handler's run over three bytes, one step at a time. */
  lemma RunOfThree(e: seq<byte>)
    requires |e| == 3
    ensures
      var t1 := Step(Fresh, e[0]);
      var t2 := Step(t1.0, e[1]);
      var t3 := Step(t2.0, e[2]);
      Run(Fresh, e[..1]).1 == t1.1 && Run(Fresh, e[..2]).1 == t1.1 + t2.1 &&
      Run(Fresh, e).0 == t3.0 && Run(Fresh, e).1 == t1.1 + t2.1 + t3.1
  {
    assert Run(Fresh, []) == (Fresh, []);
    assert e[..1] == [] + [e[0]];
    RunSnoc(Fresh, [], e[0]);
    assert e[..2] == e[..1] + [e[1]];
    RunSnoc(Fresh, e[..1], e[1]);
    assert e == e[..2] + [e[2]];
    RunSnoc(Fresh, e[..2], e[2]);
  }

  /** The handler's run over four bytes, one step at a time. */
  lemma RunOfFour(e: seq<byte>)
    requires |e| == 4
    ensures
      var t1 := Step(Fresh, e[0]);
      var t2 := Step(t1.0, e[1]);
      var t3 := Step(t2.0, e[2]);
      var t4 := Step(t3.0, e[3]);
      Run(Fresh, e[..1]).1 == t1.1 && Run(Fresh, e[..2]).1 == t1.1 + t2.1 &&
      Run(Fresh, e[..3]).1 == t1.1 + t2.1 + t3.1 &&
      Run(Fresh, e).0 == t4.0 && Run(Fresh, e).1 == t1.1 + t2.1 + t3.1 + t4.1
  {
    assert Run(Fresh, []) == (Fresh, []);
    assert e[..1] == [] + [e[0]];
    RunSnoc(Fresh, [], e[0]);
    assert e[..2] == e[..1] + [e[1]];
    RunSnoc(Fresh, e[..1], e[1]);
    assert e[..3] == e[..2] + [e[2]];
    RunSnoc(Fresh, e[..2], e[2]);
    assert e == e[..3] + [e[3]];
    RunSnoc(Fresh, e[..3], e[3]);
  }

  /** A continuation byte in range that does not finish the sequence. */
  lemma StepContinues(d: Utf8Decoder, b: byte)
    requires Valid(d) && d.bytesNeeded > 0 && d.lowerBoundary <= b <= d.upperBoundary
    requires d.bytesSeen + 1 < d.bytesNeeded
    ensures Step(d, b) == (Utf8Decoder(d.codePoint * 64 + (b - 0x80), d.bytesSeen + 1, d.bytesNeeded, 0x80, 0xBF), [])
  {
  }

  /** A continuation byte in range that finishes the sequence. */
  lemma StepCompletes(d: Utf8Decoder, b: byte)
    requires Valid(d) && d.bytesNeeded > 0 && d.lowerBoundary <= b <= d.upperBoundary
    requires d.bytesSeen + 1 == d.bytesNeeded
    ensures Step(d, b).0 == Fresh && |Step(d, b).1| == 1
    ensures Step(d, b).1[0] as int == d.codePoint * 64 + (b - 0x80)
  {
  }

  lemma FourByteSteps(c: char)
    requires 0x10000 <= c as int
    ensures Run(Fresh, EncodeChar(c)[..1]).1 == []
    ensures Run(Fresh, EncodeChar(c)[..2]).1 == []
    ensures Run(Fresh, EncodeChar(c)[..3]).1 == []
    ensures Run(Fresh, EncodeChar(c)) == (Fresh, [c])
  {
    var n := c as int;
    SixBitGroups(n);
    var p, q, m, l := n / 262144, (n / 4096) % 64, (n / 64) % 64, n % 64;
    assert n == p * 262144 + q * 4096 + m * 64 + l;
    assert n <= 0x10FFFF;
    var e := EncodeChar(c);
    assert e == [0xF0 + p, 0x80 + q, 0x80 + m, 0x80 + l];
    FourByteRun(e, p, q, m, l);
    assert Run(Fresh, e).1[0] == c;
    assert Run(Fresh, e).1 == [c];
  }

  /** The four bytes `F0+p, 80+q, 80+m, 80+l` of a code point at or above U+10000. */
  lemma FourByteRun(e: seq<byte>, p: int, q: int, m: int, l: int)
    requires 0 <= p <= 4 && 0 <= q < 64 && 0 <= m < 64 && 0 <= l < 64
    requires p == 0 ==> q >= 16
    requires p == 4 ==> q <= 15
    requires e == [0xF0 + p, 0x80 + q, 0x80 + m, 0x80 + l]
    ensures Run(Fresh, e[..1]).1 == [] && Run(Fresh, e[..2]).1 == [] && Run(Fresh, e[..3]).1 == []
    ensures Run(Fresh, e).0 == Fresh && |Run(Fresh, e).1| == 1
    ensures Run(Fresh, e).1[0] as int == p * 262144 + q * 4096 + m * 64 + l
  {
    var t1 := Step(Fresh, e[0]);
    assert t1 == (Utf8Decoder(p, 0, 3, if p == 0 then 0x90 else 0x80, if p == 4 then 0x8F else 0xBF), []);
    StepContinues(t1.0, e[1]);
    var t2 := Step(t1.0, e[1]);
    StepContinues(t2.0, e[2]);
    var t3 := Step(t2.0, e[2]);
    StepCompletes(t3.0, e[3]);
    RunOfFour(e);
  }

  /** A proper prefix of a character's encoding is held back: nothing is emitted yet. */
  lemma PartialCharHeldBack(c: char, p: seq<byte>)
    requires p < EncodeChar(c)
    ensures Run(Fresh, p).1 == []
  {
    EncodedCharSteps(c);
    assert p == EncodeChar(c)[..|p|];
  }

  /** Decoding well-formed UTF-8 gives back the encoded string. */
  lemma {:induction false} DecodeEncoded(s: string)
    ensures Run(Fresh, Encode(s)) == (Fresh, s)
  {
    if s != [] {
      assert Encode(s) == EncodeChar(s[0]) + Encode(s[1..]);
      RunAppend(Fresh, EncodeChar(s[0]), Encode(s[1..]));
      EncodedCharSteps(s[0]);
      DecodeEncoded(s[1..]);
      assert [s[0]] + s[1..] == s;
    }
  }

  /** A whole character's bytes, then anything: the character, then what the rest gives. */
  lemma RunAfterChar(c: char, rest: seq<byte>)
    ensures Run(Fresh, EncodeChar(c) + rest).0 == Run(Fresh, rest).0
    ensures Run(Fresh, EncodeChar(c) + rest).1 == [c] + Run(Fresh, rest).1
  {
    RunAppend(Fresh, EncodeChar(c), rest);
    EncodedCharSteps(c);
  }

  /** Decoding a prefix of the encoding of `s` gives a prefix of `s`: a character
      whose bytes have not all arrived is not shown. */
  lemma {:induction false} DecodeEncodedPrefix(s: string, p: seq<byte>)
    requires p <= Encode(s)
    ensures Run(Fresh, p).1 <= s
  {
    if s == [] {
      assert p == [];
      assert Run(Fresh, p) == (Fresh, []);
    } else {
      var e := EncodeChar(s[0]);
      assert Encode(s) == e + Encode(s[1..]);
      if |p| < |e| {
        assert p == e[..|p|];
        assert p < e;
        PartialCharHeldBack(s[0], p);
      } else {
        var rest := p[|e|..];
        assert p[..|e|] == e;
        assert p == e + rest;
        RunAfterChar(s[0], rest);
        DecodeEncodedPrefix(s[1..], rest);
        assert s == [s[0]] + s[1..];
      }
    }
  }

  /** What a `TextDecoder` keeps between `decode(chunk, { stream: true })` calls:
      the byte handler's state and whether the first scalar value has been seen. */
  datatype TextDecoder = TextDecoder(handler: Utf8Decoder, bomSeen: bool)

  const NewTextDecoder: TextDecoder := TextDecoder(Fresh, false)

  ghost predicate ValidDecoder(t: TextDecoder) { Valid(t.handler) }

  /** The output step of `decode`: the first scalar value of the whole stream is
      dropped when it is U+FEFF; everything after it passes through. */
  function Serialize(bomSeen: bool, items: seq<char>): (r: (bool, seq<char>))
    ensures r.0 == (bomSeen || items != [])
    ensures !bomSeen && items != [] && items[0] == ByteOrderMark ==> r.1 == items[1..]
    ensures !(!bomSeen && items != [] && items[0] == ByteOrderMark) ==> r.1 == items
  {
    if bomSeen || items == [] then (bomSeen, items)
    else (true, if items[0] == ByteOrderMark then items[1..] else items)
  }

  /** `decoder.decode(chunk, { stream: true })`: returns the updated decoder and the text. */
  function DecodeChunk(t: TextDecoder, chunk: seq<byte>): (r: (TextDecoder, string))
    requires ValidDecoder(t)
    ensures ValidDecoder(r.0)
    ensures r.0.handler == Run(t.handler, chunk).0
    ensures r.0.bomSeen == (t.bomSeen || Run(t.handler, chunk).1 != [])
    ensures t.bomSeen ==> r.1 == Run(t.handler, chunk).1
    ensures !t.bomSeen ==> r.1 == WithoutLeadingBom(Run(t.handler, chunk).1)
  {
    var (h, items) := Run(t.handler, chunk);
    var (seen, text) := Serialize(t.bomSeen, items);
    (TextDecoder(h, seen), text)
  }

  /** The text as a whole: a leading U+FEFF is dropped. */
  function WithoutLeadingBom(s: string): (r: string)
    ensures s != [] && s[0] == ByteOrderMark ==> r == s[1..]
    ensures !(s != [] && s[0] == ByteOrderMark) ==> r == s
  {
    if s != [] && s[0] == ByteOrderMark then s[1..] else s
  }

  /** Decoding the chunks one after another from a new decoder, as the client's read
      loop does; the decoder is never flushed. */
  function DecodeChunks(chunks: seq<seq<byte>>): (r: (TextDecoder, string))
    ensures ValidDecoder(r.0)
  {
    if chunks == [] then (NewTextDecoder, [])
    else
      var (t, text) := DecodeChunks(chunks[..|chunks| - 1]);
      var (t', more) := DecodeChunk(t, chunks[|chunks| - 1]);
      (t', text + more)
  }

  /** Decoding one more chunk continues from the decoder the earlier chunks left. */
  lemma DecodeChunksStep(chunks: seq<seq<byte>>, i: nat)
    requires i < |chunks|
    ensures DecodeChunks(chunks[..i + 1]).0 == DecodeChunk(DecodeChunks(chunks[..i]).0, chunks[i]).0
    ensures DecodeChunks(chunks[..i + 1]).1 == DecodeChunks(chunks[..i]).1 + DecodeChunk(DecodeChunks(chunks[..i]).0, chunks[i]).1
  {
    assert chunks[..i + 1][..i] == chunks[..i];
  }

  /** Serializing more items after `raw` continues the text of `raw` without a leading U+FEFF. */
  lemma SerializeAfter(raw: seq<char>, more: seq<char>)
    ensures Serialize(raw != [], more).0 == (raw + more != [])
    ensures WithoutLeadingBom(raw) + Serialize(raw != [], more).1 == WithoutLeadingBom(raw + more)
  {
    if raw != [] {
      assert (raw + more)[0] == raw[0];
      if raw[0] == ByteOrderMark {
        assert (raw + more)[1..] == raw[1..] + more;
      }
    } else {
      assert raw + more == more;
    }
  }

  /** The chunk boundaries do not matter: decoding the chunks one by one gives the text
      that decoding all their bytes at once gives, minus a leading U+FEFF. */
  lemma {:induction false} DecodeChunksFlat(chunks: seq<seq<byte>>)
    ensures DecodeChunks(chunks).0.handler == Run(Fresh, Flatten(chunks)).0
    ensures DecodeChunks(chunks).0.bomSeen == (Run(Fresh, Flatten(chunks)).1 != [])
    ensures DecodeChunks(chunks).1 == WithoutLeadingBom(Run(Fresh, Flatten(chunks)).1)
  {
    if chunks != [] {
      var init := chunks[..|chunks| - 1];
      var last := chunks[|chunks| - 1];
      DecodeChunksFlat(init);
      var before := DecodeChunks(init);
      var step := DecodeChunk(before.0, last);
      assert DecodeChunks(chunks) == (step.0, before.1 + step.1);
      RunAppend(Fresh, Flatten(init), last);
      var raw := Run(Fresh, Flatten(init)).1;
      var more := Run(Run(Fresh, Flatten(init)).0, last).1;
      assert Flatten(chunks) == Flatten(init) + last;
      assert step.1 == Serialize(raw != [], more).1;
      SerializeAfter(raw, more);
    }
  }

  /** However the encoding of `s` is split into chunks, the client's decoder yields `s`
      without a leading U+FEFF and holds no partial character afterwards. */
  lemma DecodeChunksOfEncoding(s: string, chunks: seq<seq<byte>>)
    requires Flatten(chunks) == Encode(s)
    ensures DecodeChunks(chunks).1 == WithoutLeadingBom(s)
    ensures DecodeChunks(chunks).0.handler == Fresh
  {
    DecodeChunksFlat(chunks);
    DecodeEncoded(s);
  }

  /** When only a prefix of the encoding of `s` arrives, the client's text is a prefix
      of `s` without its leading U+FEFF. */
  lemma DecodeChunksOfEncodingPrefix(s: string, chunks: seq<seq<byte>>)
    requires Flatten(chunks) <= Encode(s)
    ensures DecodeChunks(chunks).1 <= WithoutLeadingBom(s)
  {
    DecodeChunksFlat(chunks);
    DecodeEncodedPrefix(s, Flatten(chunks));
    var raw := Run(Fresh, Flatten(chunks)).1;
    if raw != [] && raw[0] == ByteOrderMark {
      assert s[0] == raw[0];
      assert raw[1..] <= s[1..];
    }
  }
}
