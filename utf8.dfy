/** UTF-8 encoding of strings, as `TextEncoder.encode` performs it.
    A Dafny `char` is a Unicode scalar value, so every string here is well formed. */
module Utf8 {

  type byte = b: int | 0 <= b < 0x100

  /** The UTF-8 encoding of one scalar value: one to four bytes. */
  function EncodeChar(c: char): (r: seq<byte>)
    ensures 1 <= |r| <= 4
    ensures |r| == 1 <==> (c as int) < 0x80
    ensures |r| == 1 ==> r[0] == c as int
    ensures |r| > 1 ==> 0xC2 <= r[0] <= 0xF4 && forall k :: 1 <= k < |r| ==> 0x80 <= r[k] <= 0xBF
  {
    var n := c as int;
    if n < 0x80 then [n]
    else if n < 0x800 then [0xC0 + n / 64, 0x80 + n % 64]
    else if n < 0x10000 then [0xE0 + n / 4096, 0x80 + (n / 64) % 64, 0x80 + n % 64]
    else [0xF0 + n / 262144, 0x80 + (n / 4096) % 64, 0x80 + (n / 64) % 64, 0x80 + n % 64]
  }

  /** `TextEncoder.encode(s)`: the encodings of the characters, in order. */
  function Encode(s: string): (r: seq<byte>)
    ensures |s| <= |r| <= 4 * |s|
  {
    if s == [] then [] else EncodeChar(s[0]) + Encode(s[1..])
  }

  /** Encoding distributes over concatenation, so encoding fragments one by one
      and encoding their concatenation give the same bytes. */
  lemma {:induction false} EncodeAppend(a: string, b: string)
    ensures Encode(a + b) == Encode(a) + Encode(b)
  {
    if a == [] {
      assert a + b == b;
    } else {
      assert (a + b)[0] == a[0];
      assert (a + b)[1..] == a[1..] + b;
      EncodeAppend(a[1..], b);
    }
  }

  /** Concatenation of a sequence of strings (the order of arrival is kept). */
  function Concat(parts: seq<string>): (r: string)
  {
    if parts == [] then [] else Concat(parts[..|parts| - 1]) + parts[|parts| - 1]
  }

  /** Concatenation of a sequence of byte chunks. */
  function Flatten(chunks: seq<seq<byte>>): (r: seq<byte>)
  {
    if chunks == [] then [] else Flatten(chunks[..|chunks| - 1]) + chunks[|chunks| - 1]
  }

  lemma {:induction false} FlattenAppend(a: seq<seq<byte>>, b: seq<seq<byte>>)
    ensures Flatten(a + b) == Flatten(a) + Flatten(b)
    decreases |b|
  {
    if b == [] {
      assert a + b == a;
    } else {
      var b' := b[..|b| - 1];
      assert (a + b)[..|a + b| - 1] == a + b';
      FlattenAppend(a, b');
    }
  }

  lemma {:induction false} ConcatAppend(a: seq<string>, b: seq<string>)
    ensures Concat(a + b) == Concat(a) + Concat(b)
    decreases |b|
  {
    if b == [] {
      assert a + b == a;
    } else {
      var b' := b[..|b| - 1];
      assert (a + b)[..|a + b| - 1] == a + b';
      ConcatAppend(a, b');
    }
  }

  /** One chunk per fragment: chunk `i` is the encoding of fragment `i`. */
  function EncodeAll(parts: seq<string>): (r: seq<seq<byte>>)
    ensures |r| == |parts|
    ensures forall i :: 0 <= i < |parts| ==> r[i] == Encode(parts[i])
  {
    if parts == [] then [] else EncodeAll(parts[..|parts| - 1]) + [Encode(parts[|parts| - 1])]
  }

  /** Nothing is lost, reordered or duplicated: the bytes of the chunks, in order,
      are exactly the encoding of the whole text. */
  lemma {:induction false} FlattenEncodeAll(parts: seq<string>)
    ensures Flatten(EncodeAll(parts)) == Encode(Concat(parts))
  {
    if parts != [] {
      var init := parts[..|parts| - 1];
      var last := parts[|parts| - 1];
      var chunks := EncodeAll(parts);
      assert chunks == EncodeAll(init) + [Encode(last)];
      assert chunks[..|chunks| - 1] == EncodeAll(init);
      FlattenEncodeAll(init);
      EncodeAppend(Concat(init), last);
    }
  }
}
