/** The two JavaScript string primitives the request schemas rely on:
    `String.prototype.trim` and `.length`. A Dafny `char` is one Unicode
    scalar value; JavaScript measures strings in UTF-16 code units, so a
    character outside the Basic Multilingual Plane counts twice. */
module JsString {

  /** WhiteSpace and LineTerminator code points of the ECMAScript grammar,
      the set `trim` strips from both ends. */
  predicate IsTrimmable(c: char) {
    || c == '\t' || c == '\n' || c == '\U{000B}' || c == '\U{000C}' || c == '\r'
    || c == ' ' || c == '\U{00A0}' || c == '\U{1680}'
    || ('\U{2000}' <= c <= '\U{200A}')
    || c == '\U{2028}' || c == '\U{2029}' || c == '\U{202F}' || c == '\U{205F}'
    || c == '\U{3000}' || c == '\U{FEFF}'
  }

  predicate AllTrimmable(s: string) {
    forall k :: 0 <= k < |s| ==> IsTrimmable(s[k])
  }

  /** Number of trimmable characters at the front of `s`. */
  function LeadingCount(s: string): (n: nat)
    ensures n <= |s|
    ensures forall k :: 0 <= k < n ==> IsTrimmable(s[k])
    ensures n == |s| || !IsTrimmable(s[n])
  {
    if |s| == 0 || !IsTrimmable(s[0]) then 0
    else
      var n := 1 + LeadingCount(s[1..]);
      assert forall k :: 1 <= k < n ==> s[k] == s[1..][k - 1];
      n
  }

  /** End of the kept part of `s[lo..j]`: `j` moved left past trailing
      trimmable characters, but not below `lo`. */
  function KeptEnd(s: string, lo: nat, j: nat): (e: nat)
    requires lo <= j <= |s|
    ensures lo <= e <= j
    ensures forall k :: e <= k < j ==> IsTrimmable(s[k])
    ensures e == lo || !IsTrimmable(s[e - 1])
    decreases j
  {
    if j > lo && IsTrimmable(s[j - 1]) then KeptEnd(s, lo, j - 1) else j
  }

  /** `s.trim()`: the slice of `s` between its leading and trailing runs of
      trimmable characters. */
  function Trim(s: string): (r: string)
    ensures |r| <= |s|
    ensures r == [] || (!IsTrimmable(r[0]) && !IsTrimmable(r[|r| - 1]))
  {
    var i := LeadingCount(s);
    var e := KeptEnd(s, i, |s|);
    assert e > i ==> s[i..e][0] == s[i] && s[i..e][e - i - 1] == s[e - 1];
    s[i..e]
  }

  /** The trim of `s` is a slice of `s` with only trimmable characters cut
      away on either side, and it neither starts nor ends with one: the two
      facts that pin down what `trim` returns. */
  lemma TrimIsTightSlice(s: string)
    ensures exists i, j ::
      (&& 0 <= i <= j <= |s| && Trim(s) == s[i..j]
       && (forall k :: 0 <= k < i ==> IsTrimmable(s[k]))
       && (forall k :: j <= k < |s| ==> IsTrimmable(s[k])))
  {
    var i := LeadingCount(s);
    var e := KeptEnd(s, i, |s|);
    assert Trim(s) == s[i..e];
  }

  /** A string that starts and ends with a non-trimmable character, or is
      empty, is its own trim. */
  lemma TrimOfTrimmed(s: string)
    requires s == [] || (!IsTrimmable(s[0]) && !IsTrimmable(s[|s| - 1]))
    ensures Trim(s) == s
  {
    assert LeadingCount(s) == 0;
    assert KeptEnd(s, 0, |s|) == |s|;
    assert s[0..|s|] == s;
  }

  /** Trimming twice is trimming once. */
  lemma TrimIdempotent(s: string)
    ensures Trim(Trim(s)) == Trim(s)
  {
    TrimOfTrimmed(Trim(s));
  }

  /** The trim is empty exactly when every character is trimmable. */
  lemma TrimEmptyIff(s: string)
    ensures Trim(s) == [] <==> AllTrimmable(s)
  {
    var i := LeadingCount(s);
    var e := KeptEnd(s, i, |s|);
    assert Trim(s) == s[i..e];
  }

  /** Code units one character occupies in UTF-16. */
  function CodeUnits(c: char): nat {
    if c as int > 0xFFFF then 2 else 1
  }

  /** JavaScript `.length`: the UTF-16 code-unit count. */
  function Utf16Length(s: string): (n: nat)
    ensures |s| <= n <= 2 * |s|
    ensures n == 0 <==> s == []
  {
    if |s| == 0 then 0 else CodeUnits(s[0]) + Utf16Length(s[1..])
  }

  /** A string of Basic Multilingual Plane characters has as many code units
      as characters. */
  lemma {:induction false} Utf16LengthOfBmp(s: string)
    requires forall k :: 0 <= k < |s| ==> s[k] as int <= 0xFFFF
    ensures Utf16Length(s) == |s|
  {
    if |s| > 0 {
      Utf16LengthOfBmp(s[1..]);
    }
  }

  /** A single character counts once, or twice when it lies above U+FFFF
      and needs a surrogate pair. */
  lemma Utf16LengthOfChar(c: char)
    ensures Utf16Length([c]) == (if c as int > 0xFFFF then 2 else 1)
  {
    assert [c][1..] == [];
  }

  /** `.length` of a concatenation is the sum of the lengths. */
  lemma {:induction false} Utf16LengthAppend(s: string, t: string)
    ensures Utf16Length(s + t) == Utf16Length(s) + Utf16Length(t)
  {
    if |s| > 0 {
      assert (s + t)[1..] == s[1..] + t;
      Utf16LengthAppend(s[1..], t);
    } else {
      assert s + t == t;
    }
  }
}
