/** The string operations the scraper relies on: Python's `str.strip()`, `str.lower()`,
    `sep.join(parts)` and the substring test `k in s`. */
module Text {

  /** The characters Python's `str.isspace()` accepts within the ASCII and Latin-1 range. */
  predicate IsSpace(c: char) {
    c == ' ' || ('\t' <= c <= '\r') || ('\U{1C}' <= c <= '\U{1F}') || c == '\U{85}' || c == '\U{A0}'
  }

  /** `s.lstrip()`. */
  function TrimStart(s: string): string {
    if s != [] && IsSpace(s[0]) then TrimStart(s[1..]) else s
  }

  /** `s.rstrip()`. */
  function TrimEnd(s: string): string {
    if s != [] && IsSpace(s[|s| - 1]) then TrimEnd(s[..|s| - 1]) else s
  }

  /** `s.strip()`. */
  function Strip(s: string): string {
    TrimEnd(TrimStart(s))
  }

  /** `lstrip` drops the leading whitespace and nothing else: the result is a suffix of `s`, what
      it drops is whitespace, and it does not start with whitespace. */
  lemma {:induction false} TrimStartSpec(s: string)
    ensures var r := TrimStart(s);
      && |r| <= |s| && r == s[|s| - |r|..]
      && (forall i :: 0 <= i < |s| - |r| ==> IsSpace(s[i]))
      && (r == [] || !IsSpace(r[0]))
    decreases |s|
  {
    if s != [] && IsSpace(s[0]) {
      TrimStartSpec(s[1..]);
      var r := TrimStart(s[1..]);
      assert s[1..][|s| - 1 - |r|..] == s[|s| - |r|..];
      forall i | 1 <= i < |s| - |r|
        ensures IsSpace(s[i])
      {
        assert s[i] == s[1..][i - 1];
      }
    } else {
      assert s[0..] == s;
    }
  }

  /** `rstrip` drops the trailing whitespace and nothing else: the result is a prefix of `s`, what
      it drops is whitespace, and it does not end with whitespace. */
  lemma {:induction false} TrimEndSpec(s: string)
    ensures var r := TrimEnd(s);
      && |r| <= |s| && r == s[..|r|]
      && (forall i :: |r| <= i < |s| ==> IsSpace(s[i]))
      && (r == [] || !IsSpace(r[|r| - 1]))
    decreases |s|
  {
    if s != [] && IsSpace(s[|s| - 1]) {
      TrimEndSpec(s[..|s| - 1]);
      var r := TrimEnd(s[..|s| - 1]);
      assert s[..|s| - 1][..|r|] == s[..|r|];
      forall i | |r| <= i < |s| - 1
        ensures IsSpace(s[i])
      {
        assert s[i] == s[..|s| - 1][i];
      }
    } else {
      assert s[..|s|] == s;
    }
  }

  /** `strip` leaves a slice of `s` that neither starts nor ends with whitespace, and everything it
      cuts off on either side is whitespace. */
  lemma StripSpec(s: string)
    ensures var r := Strip(s);
      && (r == [] || (!IsSpace(r[0]) && !IsSpace(r[|r| - 1])))
      && Trims(s, r, |s| - |TrimStart(s)|)
  {
    var t := TrimStart(s);
    TrimStartSpec(s);
    TrimEndSpec(t);
    var r := TrimEnd(t);
    if r != [] {
      assert r[0] == t[0];
    }
    SliceTrims(s, t, r);
  }

  /** A prefix `r` of a suffix `t` of `s`, with whitespace cut off on both sides, trims `s`. */
  lemma SliceTrims(s: string, t: string, r: string)
    requires |t| <= |s| && t == s[|s| - |t|..]
    requires forall i :: 0 <= i < |s| - |t| ==> IsSpace(s[i])
    requires |r| <= |t| && r == t[..|r|]
    requires forall i :: |r| <= i < |t| ==> IsSpace(t[i])
    ensures Trims(s, r, |s| - |t|)
  {
    var i := |s| - |t|;
    assert s[i..i + |r|] == r by {
      assert s[i..i + |r|] == t[..|r|];
    }
    forall k | i + |r| <= k < |s|
      ensures IsSpace(s[k])
    {
      assert s[k] == t[k - i];
    }
  }

  /** `r` sits in `s` at offset `i`, and the characters of `s` around it are all whitespace. */
  ghost predicate Trims(s: string, r: string, i: int) {
    && 0 <= i && i + |r| <= |s|
    && s[i..i + |r|] == r
    && (forall k :: 0 <= k < i ==> IsSpace(s[k]))
    && (forall k :: i + |r| <= k < |s| ==> IsSpace(s[k]))
  }

  /** A string that neither starts nor ends with whitespace is its own `strip()`. */
  lemma StripUnchanged(s: string)
    requires s == [] || (!IsSpace(s[0]) && !IsSpace(s[|s| - 1]))
    ensures Strip(s) == s
  {
  }

  /** `c.lower()` on one character; only the ASCII letters are mapped. */
  function LowerChar(c: char): char {
    if 'A' <= c <= 'Z' then (c as int + 32) as char else c
  }

  /** `s.lower()`, character by character. */
  function Lower(s: string): (r: string)
    ensures |r| == |s|
  {
    seq(|s|, i requires 0 <= i < |s| => LowerChar(s[i]))
  }

  /** `sep.join(parts)`. */
  function Join(sep: string, parts: seq<string>): string {
    if parts == [] then ""
    else if |parts| == 1 then parts[0]
    else Join(sep, parts[..|parts| - 1]) + sep + parts[|parts| - 1]
  }

  /** `k` occurs in `s` starting at position `i`. */
  predicate OccursAt(k: string, s: string, i: int) {
    0 <= i && i + |k| <= |s| && s[i..i + |k|] == k
  }

  /** Python's `k in s` on strings, computed by trying each start position in turn. */
  function Contains(s: string, k: string): bool
    decreases |s|
  {
    if |k| > |s| then false
    else if s[..|k|] == k then true
    else Contains(s[1..], k)
  }

  /** `Contains` is exactly substring occurrence: true iff `k` occurs somewhere in `s`. */
  lemma {:induction false} ContainsIffOccurs(s: string, k: string)
    ensures Contains(s, k) <==> exists i :: OccursAt(k, s, i)
    decreases |s|
  {
    if |k| > |s| {
    } else if s[..|k|] == k {
      assert OccursAt(k, s, 0);
    } else {
      ContainsIffOccurs(s[1..], k);
      if Contains(s[1..], k) {
        var i :| OccursAt(k, s[1..], i);
        assert s[1..][i..i + |k|] == s[i + 1..i + 1 + |k|];
        assert OccursAt(k, s, i + 1);
      }
      if exists i :: OccursAt(k, s, i) {
        var i :| OccursAt(k, s, i);
        assert i != 0;
        assert s[1..][i - 1..i - 1 + |k|] == s[i..i + |k|];
        assert OccursAt(k, s[1..], i - 1);
      }
    }
  }

  /** The empty string is in every string, as in Python. */
  lemma EmptyIsContained(s: string)
    ensures Contains(s, "")
  {
  }
}
