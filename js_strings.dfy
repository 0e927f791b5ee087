/** The few `String.prototype` operations the pages use, over strings of scalar values. */
module JsStrings {

  /** ECMAScript WhiteSpace and LineTerminator: what `trim` removes and `\s` matches. */
  predicate IsSpace(c: char) {
    var n := c as int;
    (0x09 <= n <= 0x0D) || n == 0x20 || n == 0xA0 || n == 0x1680 || (0x2000 <= n <= 0x200A) ||
    n == 0x2028 || n == 0x2029 || n == 0x202F || n == 0x205F || n == 0x3000 || n == 0xFEFF
  }

  predicate AllSpace(s: string) {
    forall k :: 0 <= k < |s| ==> IsSpace(s[k])
  }

  /** The JavaScript length of a string: UTF-16 code units, two for a character above U+FFFF. */
  function Utf16Length(s: string): (r: nat)
    ensures |s| <= r <= 2 * |s|
  {
    if s == [] then 0 else (if s[0] as int >= 0x10000 then 2 else 1) + Utf16Length(s[1..])
  }

  lemma {:induction false} Utf16LengthAppend(a: string, b: string)
    ensures Utf16Length(a + b) == Utf16Length(a) + Utf16Length(b)
  {
    if a == [] {
      assert a + b == b;
    } else {
      assert (a + b)[0] == a[0];
      assert (a + b)[1..] == a[1..] + b;
      Utf16LengthAppend(a[1..], b);
    }
  }

  /** Removing leading white space: what remains is a suffix that starts with a
      non-space, and everything removed is white space. */
  function TrimStart(s: string): (r: string)
    ensures |r| <= |s| && r == s[|s| - |r|..]
    ensures r == [] || !IsSpace(r[0])
    ensures forall k :: 0 <= k < |s| - |r| ==> IsSpace(s[k])
  {
    if s != [] && IsSpace(s[0]) then TrimStart(s[1..]) else s
  }

  /** Removing trailing white space. */
  function TrimEnd(s: string): (r: string)
    ensures |r| <= |s| && r == s[..|r|]
    ensures r == [] || !IsSpace(r[|r| - 1])
    ensures forall k :: |r| <= k < |s| ==> IsSpace(s[k])
  {
    if s != [] && IsSpace(s[|s| - 1]) then TrimEnd(s[..|s| - 1]) else s
  }

  /** Trimming white space at both ends: empty exactly when `s` is all white space. */
  function Trim(s: string): (r: string)
    ensures r == [] <==> AllSpace(s)
    ensures r != [] ==> !IsSpace(r[0]) && !IsSpace(r[|r| - 1])
  {
    TrimEnd(TrimStart(s))
  }

  /** The longest prefix without white space. */
  function LeadingWord(s: string): (r: string)
    ensures r <= s
    ensures forall k :: 0 <= k < |r| ==> !IsSpace(r[k])
    ensures |r| < |s| ==> IsSpace(s[|r|])
  {
    if s == [] || IsSpace(s[0]) then [] else [s[0]] + LeadingWord(s[1..])
  }

  /** Splitting on the white-space pattern: the pieces between maximal runs of white space. A leading or
      trailing run gives an empty first or last piece, and `""` splits into `[""]`. */
  function SplitOnSpaces(s: string): (r: seq<string>)
    ensures |r| > 0
    ensures forall k, j :: 0 <= k < |r| && 0 <= j < |r[k]| ==> !IsSpace(r[k][j])
    decreases |s|
  {
    var w := LeadingWord(s);
    if |w| == |s| then [w] else [w] + SplitOnSpaces(TrimStart(s[|w|..]))
  }

  /** Keeping the truthy strings: drops the empty ones. */
  function NonEmpty(parts: seq<string>): (r: seq<string>)
    ensures |r| <= |parts|
    ensures forall k :: 0 <= k < |r| ==> r[k] != []
    ensures forall k :: 0 <= k < |r| ==> r[k] in parts
  {
    if parts == [] then []
    else (if parts[0] == [] then [] else [parts[0]]) + NonEmpty(parts[1..])
  }

  /** The number of characters that are not white space and begin the string or follow
      white space: the number of words, counted by scanning once. */
  function WordStarts(s: string, afterSpace: bool): (r: nat)
    ensures r <= |s|
  {
    if s == [] then 0
    else (if afterSpace && !IsSpace(s[0]) then 1 else 0) + WordStarts(s[1..], IsSpace(s[0]))
  }

  /** The first position of `c`, or -1. */
  function IndexOf(s: string, c: char): (r: int)
    ensures -1 <= r < |s|
    ensures r == -1 <==> c !in s
    ensures r >= 0 ==> s[r] == c && c !in s[..r]
  {
    if s == [] then -1
    else if s[0] == c then 0
    else var i := IndexOf(s[1..], c); if i == -1 then -1 else i + 1
  }

  /** Replacing a one-character string pattern: only the first occurrence
      of `a` is replaced. */
  function ReplaceFirst(s: string, a: char, b: char): (r: string)
    ensures |r| == |s|
    ensures forall k :: 0 <= k < |s| ==> r[k] == if k == IndexOf(s, a) then b else s[k]
  {
    if s == [] then []
    else if s[0] == a then [b] + s[1..]
    else [s[0]] + ReplaceFirst(s[1..], a, b)
  }

  /** White space then `t`: the white space holds no word start and `t` is read after space. */
  lemma {:induction false} SpacesThen(lead: string, t: string, afterSpace: bool)
    requires lead != [] && AllSpace(lead)
    ensures WordStarts(lead + t, afterSpace) == WordStarts(t, true)
    decreases |lead|
  {
    assert (lead + t)[0] == lead[0];
    assert (lead + t)[1..] == lead[1..] + t;
    if |lead| == 1 {
      assert lead[1..] + t == t;
    } else {
      SpacesThen(lead[1..], t, true);
    }
  }

  /** `u` then white space: the white space adds no word start. */
  lemma {:induction false} ThenSpaces(u: string, trail: string, afterSpace: bool)
    requires AllSpace(trail)
    ensures WordStarts(u + trail, afterSpace) == WordStarts(u, afterSpace)
    decreases |u|
  {
    if u == [] {
      assert u + trail == trail;
      WordStartsAllSpace(trail, afterSpace);
    } else {
      assert (u + trail)[0] == u[0];
      assert (u + trail)[1..] == u[1..] + trail;
      ThenSpaces(u[1..], trail, IsSpace(u[0]));
    }
  }

  lemma {:induction false} WordStartsAllSpace(s: string, afterSpace: bool)
    requires AllSpace(s)
    ensures WordStarts(s, afterSpace) == 0
  {
    if s != [] {
      WordStartsAllSpace(s[1..], true);
    }
  }

  /** A run of non-space characters followed by white space (or nothing) holds one
      word start if it is non-empty and read after white space. */
  lemma {:induction false} WordThen(w: string, x: string, afterSpace: bool)
    requires forall k :: 0 <= k < |w| ==> !IsSpace(w[k])
    requires x == [] || IsSpace(x[0])
    ensures WordStarts(w + x, afterSpace) == (if w != [] && afterSpace then 1 else 0) + WordStarts(x, true)
    decreases |w|
  {
    if w == [] {
      assert w + x == x;
      if x != [] {
        assert WordStarts(x, afterSpace) == WordStarts(x[1..], true) == WordStarts(x, true);
      }
    } else {
      assert (w + x)[0] == w[0];
      assert (w + x)[1..] == w[1..] + x;
      WordThen(w[1..], x, false);
    }
  }

  /** Leading white space contains no word start. */
  lemma WordStartsOfTrimStart(s: string)
    ensures WordStarts(TrimStart(s), true) == WordStarts(s, true)
  {
    var t := TrimStart(s);
    var lead := s[..|s| - |t|];
    assert s == lead + t;
    if lead != [] {
      assert AllSpace(lead) by {
        forall k | 0 <= k < |lead| ensures IsSpace(lead[k]) {
          assert lead[k] == s[k];
        }
      }
      SpacesThen(lead, t, true);
    }
  }

  /** Trailing white space contains no word start. */
  lemma WordStartsOfTrimEnd(t: string)
    ensures WordStarts(TrimEnd(t), true) == WordStarts(t, true)
  {
    var u := TrimEnd(t);
    var trail := t[|u|..];
    assert t == u + trail;
    assert AllSpace(trail) by {
      forall k | 0 <= k < |trail| ensures IsSpace(trail[k]) {
        assert trail[k] == t[|u| + k];
      }
    }
    ThenSpaces(u, trail, true);
  }

  /** Leading and trailing white space contain no word start. */
  lemma WordStartsOfTrim(s: string)
    ensures WordStarts(Trim(s), true) == WordStarts(s, true)
  {
    WordStartsOfTrimStart(s);
    WordStartsOfTrimEnd(TrimStart(s));
  }

  /** Splitting on white-space runs and dropping empty pieces leaves one piece per word. */
  lemma {:induction false} SplitCountsWords(s: string)
    ensures |NonEmpty(SplitOnSpaces(s))| == WordStarts(s, true)
    decreases |s|
  {
    var w := LeadingWord(s);
    var rest := s[|w|..];
    assert s == w + rest;
    WordThen(w, rest, true);
    if |w| == |s| {
      assert SplitOnSpaces(s) == [w];
      assert NonEmpty([w]) == (if w == [] then [] else [w]) + NonEmpty([]);
    } else {
      var t := TrimStart(rest);
      var lead := rest[..|rest| - |t|];
      assert rest == lead + t;
      SpacesThen(lead, t, true);
      SplitCountsWords(t);
      var parts := SplitOnSpaces(s);
      assert parts == [w] + SplitOnSpaces(t);
      assert parts[1..] == SplitOnSpaces(t);
      assert NonEmpty(parts) == (if w == [] then [] else [w]) + NonEmpty(SplitOnSpaces(t));
    }
  }
}
