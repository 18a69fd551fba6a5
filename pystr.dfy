/** The three Python string operations the service relies on:
    `str.lower()` (restricted to ASCII letters), `str.strip()` with no
    argument, and the substring test `k in s`. */
module PyStr {

  /** The characters for which Python's `str.isspace()` holds; `str.strip()`
      removes exactly these from both ends. */
  predicate IsSpace(c: char) {
    c in {' ', '\t', '\n', '\r', '\U{0B}', '\U{0C}',
          '\U{1C}', '\U{1D}', '\U{1E}', '\U{1F}', '\U{85}', '\U{A0}',
          '\U{1680}', '\U{2000}', '\U{2001}', '\U{2002}', '\U{2003}',
          '\U{2004}', '\U{2005}', '\U{2006}', '\U{2007}', '\U{2008}',
          '\U{2009}', '\U{200A}', '\U{2028}', '\U{2029}', '\U{202F}',
          '\U{205F}', '\U{3000}'}
  }

  predicate AllSpace(s: string) {
    forall i :: 0 <= i < |s| ==> IsSpace(s[i])
  }

  /** Neither end of `s` is a whitespace character. */
  predicate NoEdgeSpace(s: string) {
    s == [] || (!IsSpace(s[0]) && !IsSpace(s[|s| - 1]))
  }

  predicate IsUpper(c: char) {
    'A' <= c <= 'Z'
  }

  predicate NoUpper(s: string) {
    forall i :: 0 <= i < |s| ==> !IsUpper(s[i])
  }

  /** ASCII case mapping of one character. */
  function LowerChar(c: char): (d: char)
    ensures !IsUpper(d)
    ensures IsUpper(c) ==> d as int == c as int + 32
    ensures !IsUpper(c) ==> d == c
  {
    if IsUpper(c) then (c as int + 32) as char else c
  }

  /** `s.lower()`: every character mapped on its own. */
  function Lower(s: string): string {
    seq(|s|, i requires 0 <= i < |s| => LowerChar(s[i]))
  }

  /** A lowered string keeps its length and has no upper-case letter left. */
  lemma LowerHasNoUpper(s: string)
    ensures |Lower(s)| == |s| && NoUpper(Lower(s))
  {
  }

  /** Lowering twice is lowering once. */
  lemma LowerIdempotent(s: string)
    ensures Lower(Lower(s)) == Lower(s)
  {
    assert forall i :: 0 <= i < |s| ==> Lower(Lower(s))[i] == Lower(s)[i];
  }

  /** A string without upper-case letters is its own lowering. */
  lemma LowerNoUpper(s: string)
    requires NoUpper(s)
    ensures Lower(s) == s
  {
  }

  /** Lowering commutes with taking a slice. */
  lemma LowerSlice(s: string, i: nat, j: nat)
    requires i <= j <= |s|
    ensures Lower(s[i..j]) == Lower(s)[i..j]
  {
    assert forall k :: 0 <= k < j - i ==> Lower(s[i..j])[k] == Lower(s)[i..j][k];
  }

  // ---------------------------------------------------------------------
  // Substring test

  /** `k` occurs in `s` starting at index `i`. */
  predicate OccursAt(k: string, s: string, i: int) {
    0 <= i && i + |k| <= |s| && s[i..i + |k|] == k
  }

  /** The reference meaning of `k in s`: some position of `s` starts a copy of `k`. */
  ghost predicate IsSubstring(k: string, s: string) {
    exists i :: OccursAt(k, s, i)
  }

  /** `k in s`, computed as a left-to-right scan over the start positions. */
  function Contains(s: string, k: string): bool
    decreases |s|
  {
    if |s| < |k| then false
    else if s[..|k|] == k then true
    else |s| > 0 && Contains(s[1..], k)
  }

  /** The scan finds `k` exactly when `k` occurs somewhere in `s`. */
  lemma {:induction false} ContainsIsSubstring(s: string, k: string)
    ensures Contains(s, k) <==> IsSubstring(k, s)
    decreases |s|
  {
    if |s| < |k| {
    } else if s[..|k|] == k {
      assert OccursAt(k, s, 0);
    } else if |s| > 0 {
      ContainsIsSubstring(s[1..], k);
      if Contains(s[1..], k) {
        var i :| OccursAt(k, s[1..], i);
        assert s[i + 1..i + 1 + |k|] == s[1..][i..i + |k|] == k;
        assert OccursAt(k, s, i + 1);
      }
      if IsSubstring(k, s) {
        var i :| OccursAt(k, s, i);
        assert s[1..][i - 1..i - 1 + |k|] == s[i..i + |k|];
        assert OccursAt(k, s[1..], i - 1);
      }
    }
  }

  /** The empty string is in every string, and nothing non-empty is in "". */
  lemma ContainsEmpty(s: string, k: string)
    ensures Contains(s, "")
    ensures |k| > 0 ==> !Contains("", k)
  {
  }

  /** A witness position is enough to make the scan succeed. */
  lemma ContainsAt(s: string, k: string, i: int)
    requires OccursAt(k, s, i)
    ensures Contains(s, k)
  {
    ContainsIsSubstring(s, k);
  }

  /** Nothing containing an upper-case letter occurs in a lowered string. */
  lemma UpperNeverInLower(s: string, k: string, j: nat)
    requires j < |k| && IsUpper(k[j])
    ensures !Contains(Lower(s), k)
  {
    ContainsIsSubstring(Lower(s), k);
  }

  /** An occurrence survives lowering both the text and the pattern. */
  lemma ContainsLower(s: string, k: string)
    requires Contains(s, k)
    ensures Contains(Lower(s), Lower(k))
  {
    ContainsIsSubstring(s, k);
    var i :| OccursAt(k, s, i);
    LowerSlice(s, i, i + |k|);
    assert OccursAt(Lower(k), Lower(s), i);
    ContainsAt(Lower(s), Lower(k), i);
  }

  // ---------------------------------------------------------------------
  // Whitespace stripping

  /** `s.lstrip()`: the longest suffix of `s` that does not start with whitespace. */
  function TrimStart(s: string): (r: string)
    ensures |r| <= |s| && r == s[|s| - |r|..]
    ensures AllSpace(s[..|s| - |r|])
    ensures r == [] || !IsSpace(r[0])
  {
    if |s| > 0 && IsSpace(s[0]) then
      var r := TrimStart(s[1..]);
      assert s[..|s| - |r|] == [s[0]] + s[1..][..|s| - 1 - |r|];
      r
    else s
  }

  /** `s.rstrip()`: the longest prefix of `s` that does not end with whitespace. */
  function TrimEnd(s: string): (r: string)
    ensures |r| <= |s| && r == s[..|r|]
    ensures AllSpace(s[|r|..])
    ensures r == [] || !IsSpace(r[|r| - 1])
  {
    if |s| > 0 && IsSpace(s[|s| - 1]) then
      var r := TrimEnd(s[..|s| - 1]);
      assert s[|r|..] == s[..|s| - 1][|r|..] + [s[|s| - 1]];
      r
    else s
  }

  /** `s.strip()`. */
  function Strip(s: string): string {
    TrimEnd(TrimStart(s))
  }

  /** `r` is `s` with the `i` characters before it and everything after it,
      all of them whitespace, cut away. */
  predicate TrimmedAt(r: string, s: string, i: int) {
    OccursAt(r, s, i) && AllSpace(s[..i]) && AllSpace(s[i + |r|..])
  }

  /** The reference meaning of `strip`: `r` is a slice of `s` with only
      whitespace cut away around it, and no whitespace left at either end. */
  ghost predicate IsStripOf(r: string, s: string) {
    NoEdgeSpace(r) && exists i :: TrimmedAt(r, s, i)
  }

  /** `strip` meets its reference meaning. */
  lemma StripSpec(s: string)
    ensures IsStripOf(Strip(s), s)
  {
    var t := TrimStart(s);
    var r := Strip(s);
    var i := |s| - |t|;
    assert s[i..i + |r|] == t[..|r|];
    assert s[i + |r|..] == t[|r|..];
    assert TrimmedAt(r, s, i);
  }

  /** The reference meaning determines the result: `strip` returns the only
      string that meets it. */
  lemma StripUnique(s: string, r: string)
    requires IsStripOf(r, s)
    ensures Strip(s) == r
  {
    StripSpec(s);
    var q := Strip(s);
    var i :| TrimmedAt(r, s, i);
    var j :| TrimmedAt(q, s, j);
    SpaceOutside(r, s, i);
    SpaceOutside(q, s, j);
    if r != [] && q != [] {
      if i < j || j < i {
        assert false;
      }
      if |r| < |q| || |q| < |r| {
        assert false;
      }
    } else if r != [] || q != [] {
      assert false;
    }
  }

  /** Index form of `TrimmedAt`: every position of `s` outside the slice is whitespace. */
  lemma SpaceOutside(r: string, s: string, i: int)
    requires TrimmedAt(r, s, i)
    ensures forall k :: 0 <= k < i ==> IsSpace(s[k])
    ensures forall k :: i + |r| <= k < |s| ==> IsSpace(s[k])
    ensures r != [] ==> s[i] == r[0] && s[i + |r| - 1] == r[|r| - 1]
  {
    assert forall k :: 0 <= k < i ==> s[..i][k] == s[k];
    assert forall k :: i + |r| <= k < |s| ==> s[i + |r|..][k - i - |r|] == s[k];
  }

  /** `strip` leaves a string with no whitespace at its ends unchanged. */
  lemma StripNoEdgeSpace(s: string)
    requires NoEdgeSpace(s)
    ensures Strip(s) == s
  {
    assert s[..0] == [] && s[|s|..] == [];
    assert TrimmedAt(s, s, 0);
    StripUnique(s, s);
  }

  /** Stripping twice is stripping once. */
  lemma StripIdempotent(s: string)
    ensures Strip(Strip(s)) == Strip(s)
  {
    StripSpec(s);
    StripNoEdgeSpace(Strip(s));
  }

  /** Whitespace around a string with none at its ends is what `strip` removes. */
  lemma StripPadded(before: string, s: string, after: string)
    requires AllSpace(before) && AllSpace(after) && NoEdgeSpace(s)
    ensures Strip(before + s + after) == s
  {
    var t := before + s + after;
    assert t[..|before|] == before;
    assert t[|before|..|before| + |s|] == s;
    assert t[|before| + |s|..] == after;
    assert TrimmedAt(s, t, |before|);
    StripUnique(t, s);
  }

  /** `strip` returns "" exactly for the strings made only of whitespace. */
  lemma StripEmptyIff(s: string)
    ensures Strip(s) == "" <==> AllSpace(s)
  {
    StripSpec(s);
    var i :| TrimmedAt(Strip(s), s, i);
    if Strip(s) == "" {
      forall k | 0 <= k < |s| ensures IsSpace(s[k]) {
        if k < i { assert s[..i][k] == s[k]; }
      }
    }
  }
}
