/** Byte strings and UTF-8. Go strings are byte sequences, so text is modelled as bytes and
    well-formedness follows the table of section 4 of RFC 3629. */
module Utf8 {
  type byte = x: int | 0 <= x < 256
  type Text = seq<byte>

  /** The bytes of an ASCII literal. */
  function Ascii(s: string): (t: Text)
    ensures |t| == |s|
  {
    seq(|s|, i requires 0 <= i < |s| => (s[i] as int) % 256)
  }

  predicate RuneStart(b: byte) {
    !(0x80 <= b < 0xC0)
  }

  predicate SecondByteOk(first: byte, second: byte) {
    if first == 0xE0 then 0xA0 <= second < 0xC0
    else if first == 0xED then 0x80 <= second < 0xA0
    else if first == 0xF0 then 0x90 <= second < 0xC0
    else if first == 0xF4 then 0x80 <= second < 0x90
    else 0x80 <= second < 0xC0
  }

  /** The number of bytes the first byte of a sequence announces, or 0 if it cannot start one. */
  function Announced(first: byte): nat {
    if first < 0x80 then 1
    else if 0xC2 <= first <= 0xDF then 2
    else if 0xE0 <= first <= 0xEF then 3
    else if 0xF0 <= first <= 0xF4 then 4
    else 0
  }

  /** The length of the well-formed sequence at the front of `s`, or 0 if there is none. */
  function RuneLen(s: Text): (n: nat)
    ensures n <= |s| && n <= 4
  {
    if s == [] then 0
    else
      var n := Announced(s[0]);
      if n <= |s|
         && (n >= 2 ==> SecondByteOk(s[0], s[1]))
         && (n >= 3 ==> !RuneStart(s[2]))
         && (n >= 4 ==> !RuneStart(s[3]))
      then n else 0
  }

  /** The characters of Unicode: all code points but the surrogates. */
  predicate Scalar(c: int) {
    0 <= c < 0xD800 || 0xE000 <= c <= 0x10FFFF
  }

  /** The encoding of section 3 of RFC 3629. */
  function Encoded(c: int): (s: Text)
    requires Scalar(c)
    ensures 1 <= |s| <= 4
  {
    if c < 0x80 then [c]
    else if c < 0x800 then [0xC0 + c / 0x40, 0x80 + c % 0x40]
    else if c < 0x1_0000 then [0xE0 + c / 0x40 / 0x40, 0x80 + c / 0x40 % 0x40, 0x80 + c % 0x40]
    else [0xF0 + c / 0x40 / 0x40 / 0x40, 0x80 + c / 0x40 / 0x40 % 0x40, 0x80 + c / 0x40 % 0x40, 0x80 + c % 0x40]
  }

  /** The value of a continuation byte. */
  function Low(b: byte): int {
    b as int - 0x80
  }

  /** The code point a well-formed sequence stands for. */
  function CodePoint(s: Text): int
    requires RuneLen(s) > 0
  {
    var n, first := RuneLen(s), s[0] as int;
    if n == 1 then first
    else if n == 2 then (first - 0xC0) * 0x40 + Low(s[1])
    else if n == 3 then ((first - 0xE0) * 0x40 + Low(s[1])) * 0x40 + Low(s[2])
    else (((first - 0xF0) * 0x40 + Low(s[1])) * 0x40 + Low(s[2])) * 0x40 + Low(s[3])
  }

  /** What the table accepts is what the encoding produces: the encoding of a character is recognised in
      full, whatever follows, and stands for that character. */
  lemma EncodedIsRune(c: int, rest: Text)
    requires Scalar(c)
    ensures RuneLen(Encoded(c) + rest) == |Encoded(c)| && CodePoint(Encoded(c) + rest) == c
  {
    EncodedIsRecognised(c);
    var s, e := Encoded(c) + rest, Encoded(c);
    SplitRune(e, |e|, s);
    assert forall j :: 0 <= j < |e| ==> s[j] == e[j];
  }

  lemma EncodedIsRecognised(c: int)
    requires Scalar(c)
    ensures RuneLen(Encoded(c)) == |Encoded(c)| && CodePoint(Encoded(c)) == c
  {
    var d := c / 0x40;
    var e := d / 0x40;
    assert c == d * 0x40 + c % 0x40 && d == e * 0x40 + d % 0x40 && e == e / 0x40 * 0x40 + e % 0x40;
    if c < 0x80 {
    } else if c < 0x800 {
    } else if c < 0x1_0000 {
    } else {
    }
  }

  /** And every sequence that is recognised is the encoding of a character. */
  lemma RuneIsEncoded(s: Text)
    requires RuneLen(s) > 0
    ensures Scalar(CodePoint(s)) && Encoded(CodePoint(s)) == s[..RuneLen(s)]
  {
    var c := CodePoint(s);
    var n := RuneLen(s);
    if n == 2 {
      Digits(s[0] as int - 0xC0, Low(s[1]));
    } else if n == 3 {
      var d := (s[0] as int - 0xE0) * 0x40 + Low(s[1]);
      Digits(s[0] as int - 0xE0, Low(s[1]));
      Digits(d, Low(s[2]));
    } else if n == 4 {
      var e := (s[0] as int - 0xF0) * 0x40 + Low(s[1]);
      var d := e * 0x40 + Low(s[2]);
      Digits(s[0] as int - 0xF0, Low(s[1]));
      Digits(e, Low(s[2]));
      Digits(d, Low(s[3]));
    }
  }

  lemma Digits(q: int, r: int)
    requires 0 <= r < 0x40
    ensures (q * 0x40 + r) / 0x40 == q && (q * 0x40 + r) % 0x40 == r
  {
  }

  predicate Valid(s: Text) {
    s == [] || (RuneLen(s) > 0 && Valid(s[RuneLen(s)..]))
  }

  /** What is left of `s` once every byte that starts no well-formed sequence is removed. */
  function Sanitized(s: Text): Text {
    if s == [] then []
    else if RuneLen(s) > 0 then s[..RuneLen(s)] + Sanitized(s[RuneLen(s)..])
    else Sanitized(s[1..])
  }

  /** The whole characters of `s`, from the front, that fit in `limit` bytes. */
  function Fit(s: Text, limit: nat): Text {
    var n := RuneLen(s);
    if n == 0 || n > limit then [] else s[..n] + Fit(s[n..], limit - n)
  }

  function Clamped(value: Text, limit: nat): Text {
    Fit(Sanitized(value), limit)
  }

  lemma SplitRune(s: Text, n: nat, t: Text)
    requires 0 < n == RuneLen(s) <= |t| && t[..n] == s[..n]
    ensures RuneLen(t) == n
  {
    assert forall j :: 0 <= j < n ==> t[j] == t[..n][j] == s[j];
  }

  lemma RuneInterior(s: Text, j: nat)
    requires j < RuneLen(s)
    ensures RuneStart(s[j]) <==> j == 0
    ensures j > 0 ==> RuneLen(s[..j]) == 0
  {
  }

  lemma {:induction false} ConcatValid(a: Text, b: Text)
    requires Valid(a) && Valid(b)
    ensures Valid(a + b)
  {
    hide RuneLen;
    if a == [] {
      assert a + b == b;
    } else {
      var n := RuneLen(a);
      SplitRune(a, n, a + b);
      ConcatValid(a[n..], b);
      assert (a + b)[n..] == a[n..] + b;
    }
  }

  lemma {:induction false} SanitizedIsValid(s: Text)
    ensures Valid(Sanitized(s))
    ensures Valid(s) ==> Sanitized(s) == s
  {
    hide RuneLen;
    if s == [] {
    } else {
      var n := RuneLen(s);
      if n > 0 {
        SanitizedIsValid(s[n..]);
        SplitRune(s, n, s[..n]);
        assert s[..n][n..] == [];
        ConcatValid(s[..n], Sanitized(s[n..]));
        assert s[..n] + s[n..] == s;
      } else {
        SanitizedIsValid(s[1..]);
      }
    }
  }

  /** Only a byte that starts no well-formed sequence is removed. */
  lemma {:induction false} SanitizedDrops(a: Text, b: Text)
    requires Valid(a) && b != [] && RuneLen(b) == 0
    ensures Sanitized(a + b) == a + Sanitized(b[1..])
    decreases |a|
  {
    hide RuneLen;
    if a == [] {
      assert a + b == b;
    } else {
      var n := RuneLen(a);
      SplitRune(a, n, a + b);
      assert (a + b)[n..] == a[n..] + b && (a + b)[..n] == a[..n];
      SanitizedDrops(a[n..], b);
      assert a[..n] + (a[n..] + Sanitized(b[1..])) == a + Sanitized(b[1..]);
    }
  }

  /** In valid text the positions between characters are exactly those before a starting byte. */
  lemma {:induction false} BoundaryIsRuneStart(s: Text, k: nat)
    requires Valid(s) && k < |s|
    ensures Valid(s[..k]) <==> RuneStart(s[k])
    decreases |s|
  {
    hide RuneLen;
    var n := RuneLen(s);
    if k == 0 {
      RuneInterior(s, 0);
    } else if k < n {
      RuneInterior(s, k);
    } else {
      SplitRune(s, n, s[..k]);
      assert s[..k][n..] == s[n..][..k - n];
      if k > n || n < |s| {
        BoundaryIsRuneStart(s[n..], k - n);
      }
    }
  }

  lemma {:induction false} FitIsValidPrefix(s: Text, limit: nat)
    requires Valid(s)
    ensures Fit(s, limit) <= s && |Fit(s, limit)| <= limit && Valid(Fit(s, limit))
    ensures |s| <= limit ==> Fit(s, limit) == s
    ensures |s| > limit ==> limit - |Fit(s, limit)| <= 3
    decreases |s|
  {
    hide RuneLen;
    var n := RuneLen(s);
    if s == [] || n > limit {
    } else {
      FitIsValidPrefix(s[n..], limit - n);
      assert s[..n] + s[n..] == s;
      SplitRune(s, n, Fit(s, limit));
      assert Fit(s, limit)[n..] == Fit(s[n..], limit - n);
    }
  }

  lemma {:induction false} FitIsLongest(s: Text, limit: nat, j: nat)
    requires Valid(s) && j <= |s| && j <= limit && Valid(s[..j])
    ensures j <= |Fit(s, limit)|
    decreases |s|
  {
    hide RuneLen;
    var n := RuneLen(s);
    if 0 < j < n {
      RuneInterior(s, j);
    } else if j >= n > 0 {
      SplitRune(s, n, s[..j]);
      assert s[..j][n..] == s[n..][..j - n];
      FitIsLongest(s[n..], limit - n, j - n);
    }
  }

  /** `Fit` is the longest prefix of valid text that is valid and within the limit; a cut loses at
      most three bytes below the limit. */
  lemma FitIsLongestValidPrefix(s: Text, limit: nat)
    requires Valid(s)
    ensures Fit(s, limit) <= s && |Fit(s, limit)| <= limit && Valid(Fit(s, limit))
    ensures forall j :: 0 <= j <= |s| && j <= limit && Valid(s[..j]) ==> j <= |Fit(s, limit)|
    ensures |s| <= limit ==> Fit(s, limit) == s
    ensures |s| > limit ==> limit - |Fit(s, limit)| <= 3
  {
    FitIsValidPrefix(s, limit);
    forall j | 0 <= j <= |s| && j <= limit && Valid(s[..j]) ensures j <= |Fit(s, limit)| {
      FitIsLongest(s, limit, j);
    }
  }

  /** What every caller of `Clamp` relies on: the result is valid, bounded, a fixed point, and for
      valid input the longest valid prefix that fits. */
  lemma ClampedIsBest(value: Text, limit: nat)
    ensures Valid(Clamped(value, limit)) && |Clamped(value, limit)| <= limit
    ensures Clamped(Clamped(value, limit), limit) == Clamped(value, limit)
    ensures Valid(value) ==> Clamped(value, limit) <= value
    ensures Valid(value) ==>
              forall j :: 0 <= j <= |value| && j <= limit && Valid(value[..j]) ==> j <= |Clamped(value, limit)|
    ensures Valid(value) && |value| > limit ==> limit - |Clamped(value, limit)| <= 3
  {
    SanitizedIsValid(value);
    FitIsLongestValidPrefix(Sanitized(value), limit);
    var c := Clamped(value, limit);
    SanitizedIsValid(c);
    FitIsLongestValidPrefix(c, limit);
  }

  /** `r` is the longest valid beginning of `text` that fits in `limit` bytes. */
  ghost predicate IsCut(r: Text, text: Text, limit: nat) {
    && r <= text && |r| <= limit && Valid(r)
    && forall j :: 0 <= j <= |text| && j <= limit && Valid(text[..j]) ==> j <= |r|
  }

  lemma ClampedIsCut(value: Text, limit: nat)
    requires Valid(value)
    ensures IsCut(Clamped(value, limit), value, limit)
  {
    ClampedIsBest(value, limit);
  }

  /** Text that fits is kept as it is. */
  lemma ClampedKeeps(text: Text, limit: nat)
    requires Valid(text) && |text| <= limit
    ensures Clamped(text, limit) == text
  {
    SanitizedIsValid(text);
    FitIsValidPrefix(text, limit);
  }

  /** The last starting byte at or below the limit is where the longest valid prefix ends. */
  lemma LastStartIsFit(s: Text, limit: nat, cut: nat)
    requires Valid(s) && cut <= limit < |s|
    requires RuneStart(s[cut])
    requires forall j :: cut < j <= limit ==> !RuneStart(s[j])
    ensures s[..cut] == Fit(s, limit)
  {
    FitIsLongestValidPrefix(s, limit);
    var k := |Fit(s, limit)|;
    assert s[..k] == Fit(s, limit);
    BoundaryIsRuneStart(s, k);
    BoundaryIsRuneStart(s, cut);
  }

  /** Cuts text back to a character boundary, scanning backwards from the limit. */
  method Clamp(input: Text, limit: nat) returns (r: Text)
    ensures r == Clamped(input, limit)
  {
    hide RuneLen, Fit;
    SanitizedIsValid(input);
    var value := if Valid(input) then input else Sanitized(input);
    if |value| <= limit {
      FitIsLongestValidPrefix(value, limit);
      return value;
    }
    RuneInterior(value, 0);
    var cut := limit;
    while cut > 0 && !RuneStart(value[cut])
      invariant 0 <= cut <= limit
      invariant forall j :: cut < j <= limit ==> !RuneStart(value[j])
    {
      cut := cut - 1;
    }
    LastStartIsFit(value, limit, cut);
    r := value[..cut];
  }

  lemma {:induction false} AsciiIsValid(s: Text)
    requires forall i :: 0 <= i < |s| ==> s[i] < 0x80
    ensures Valid(s)
  {
    if s == [] {
    } else {
      AsciiIsValid(s[1..]);
    }
  }
}
