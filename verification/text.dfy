/** The string helpers the ingestion code relies on: Python's `str.strip()`,
    the comma-to-dot replacement applied before a number is parsed, and the
    "blank cell" test used to reject rows. */
module Text {

  /** The characters Python's `str.isspace()` accepts, which is the set
      `str.strip()` with no argument removes. */
  predicate IsSpace(c: char) {
    var n := c as int;
    || c == ' '
    || 0x09 <= n <= 0x0D
    || 0x1C <= n <= 0x1F
    || n == 0x85 || n == 0xA0 || n == 0x1680
    || 0x2000 <= n <= 0x200A
    || n == 0x2028 || n == 0x2029 || n == 0x202F || n == 0x205F || n == 0x3000
  }

  predicate AllSpace(s: string) {
    forall k :: 0 <= k < |s| ==> IsSpace(s[k])
  }

  /** Index of the first non-space character at or after `i` (or `|s|`). */
  function SkipLeading(s: string, i: nat): (k: nat)
    requires i <= |s|
    ensures i <= k <= |s|
    ensures AllSpace(s[i..k])
    ensures k == |s| || !IsSpace(s[k])
    decreases |s| - i
  {
    if i == |s| || !IsSpace(s[i]) then i else SkipLeading(s, i + 1)
  }

  /** Index just past the last non-space character of `s[lo..j]` (or `lo`). */
  function SkipTrailing(s: string, lo: nat, j: nat): (k: nat)
    requires lo <= j <= |s|
    ensures lo <= k <= j
    ensures AllSpace(s[k..j])
    ensures k == lo || !IsSpace(s[k - 1])
    decreases j
  {
    if j == lo || !IsSpace(s[j - 1]) then j
    else
      var k := SkipTrailing(s, lo, j - 1);
      assert s[k..j] == s[k..j - 1] + [s[j - 1]];
      k
  }

  /** Python's `s.strip()`: the slice of `s` left after removing leading and
      trailing whitespace (see `StripCharacterised`). */
  function Strip(s: string): (r: string)
    ensures |r| <= |s|
  {
    var i := SkipLeading(s, 0);
    s[i..SkipTrailing(s, i, |s|)]
  }

  /** The bounds of `Strip` are characterised exactly: everything cut off is
      whitespace, and what is kept starts and ends with a non-space
      character unless nothing is kept, in which case the whole string was
      whitespace. */
  lemma StripCharacterised(s: string)
    ensures exists i :: 0 <= i <= |s| - |Strip(s)| && StrippedAt(s, Strip(s), i)
    ensures Strip(s) == [] <==> AllSpace(s)
    ensures Strip(s) != [] ==> !IsSpace(Strip(s)[0]) && !IsSpace(Strip(s)[|Strip(s)| - 1])
  {
    StripCut(s);
    StripEmpty(s);
  }

  /** What `Strip` cuts off is whitespace. */
  lemma StripCut(s: string)
    ensures exists i :: 0 <= i <= |s| - |Strip(s)| && StrippedAt(s, Strip(s), i)
  {
    var i := SkipLeading(s, 0);
    var j := SkipTrailing(s, i, |s|);
    assert s[0..i] == s[..i] && s[j..|s|] == s[j..];
    assert Strip(s) == s[i..j];
    assert StrippedAt(s, s[i..j], i);
  }

  /** `Strip` leaves nothing exactly when the string is all whitespace. */
  lemma StripEmpty(s: string)
    ensures Strip(s) == [] <==> AllSpace(s)
  {
    var i := SkipLeading(s, 0);
    var j := SkipTrailing(s, i, |s|);
    if i == j {
      assert s[0..i] == s[..i] && s[j..|s|] == s[i..];
      assert s == s[..i] + s[i..];
      AllSpaceConcat(s[..i], s[i..]);
    }
  }

  lemma AllSpaceConcat(a: string, b: string)
    requires AllSpace(a) && AllSpace(b)
    ensures AllSpace(a + b)
  {
  }

  /** `r` is `s` with an all-space prefix of length `i` and an all-space
      suffix removed. */
  predicate StrippedAt(s: string, r: string, i: nat)
    requires i + |r| <= |s|
  {
    && r == s[i..i + |r|]
    && AllSpace(s[..i])
    && AllSpace(s[i + |r|..])
  }

  /** A stripped string has nothing left to strip. */
  lemma StripIdempotent(s: string)
    ensures Strip(Strip(s)) == Strip(s)
  {
    var r := Strip(s);
    var r2 := Strip(r);
    StripCharacterised(s);
    StripCharacterised(r);
    if r != [] {
      var i :| 0 <= i <= |r| - |r2| && StrippedAt(r, r2, i);
      assert r2 == r;
    }
  }

  /** Python's `s.replace(',', '.')`: every comma becomes a dot and every
      other character is kept in place. */
  function ReplaceCommas(s: string): (r: string)
    ensures |r| == |s|
    ensures ',' !in r
    ensures forall k :: 0 <= k < |s| && s[k] != ',' ==> r[k] == s[k]
    ensures forall k :: 0 <= k < |s| && s[k] == ',' ==> r[k] == '.'
  {
    if s == [] then []
    else [if s[0] == ',' then '.' else s[0]] + ReplaceCommas(s[1..])
  }

  /** The texts the ingestion code treats as an empty cell: the empty
      string and the `str()` of a missing value (`'nan'`, `'None'`). */
  predicate IsBlank(t: string) {
    t == "" || t == "nan" || t == "None"
  }
}
