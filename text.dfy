/**
  The string operations the backend relies on: `String.prototype.replace` with a
  string pattern (first occurrence only), `split(',')`, the `trim` that the
  Property schema applies to titles, and the case-insensitive match of the
  public search.
*/
module Text {

  /** `pat` occurs in `s` starting at index `k`. */
  predicate OccursAt(s: string, pat: string, k: nat)
  {
    k + |pat| <= |s| && s[k..k + |pat|] == pat
  }

  /** `s.replace(pat, '')`: the first occurrence of `pat` is removed, nothing else. */
  function RemoveFirst(s: string, pat: string): (r: string)
    ensures |r| == |s| || (|pat| > 0 && |r| == |s| - |pat|)
    decreases |s|
  {
    if |pat| == 0 || |s| < |pat| then s
    else if s[..|pat|] == pat then s[|pat|..]
    else [s[0]] + RemoveFirst(s[1..], pat)
  }

  /** An occurrence in the tail of `s` is an occurrence in `s`, one index later. */
  lemma OccursInTail(s: string, pat: string, j: nat)
    requires |s| > 0
    ensures OccursAt(s[1..], pat, j) <==> OccursAt(s, pat, j + 1)
  {
    if j + 1 + |pat| <= |s| {
      assert s[1..][j..j + |pat|] == s[j + 1..j + 1 + |pat|];
    }
  }

  /** Where `pat` first occurs, it is cut out; where it never occurs, `s` is returned as is. */
  lemma {:induction false} RemoveFirstCutsFirstOccurrence(s: string, pat: string, k: nat)
    requires |pat| > 0 && OccursAt(s, pat, k)
    requires forall j :: 0 <= j < k ==> !OccursAt(s, pat, j)
    ensures RemoveFirst(s, pat) == s[..k] + s[k + |pat|..]
    decreases k
  {
    if k > 0 {
      assert !OccursAt(s, pat, 0);
      var t := s[1..];
      OccursInTail(s, pat, k - 1);
      forall j | 0 <= j < k - 1 ensures !OccursAt(t, pat, j) {
        OccursInTail(s, pat, j);
      }
      RemoveFirstCutsFirstOccurrence(t, pat, k - 1);
      assert RemoveFirst(s, pat) == [s[0]] + RemoveFirst(t, pat);
      assert t[k - 1 + |pat|..] == s[k + |pat|..];
      assert [s[0]] + t[..k - 1] == s[..k];
    }
  }

  lemma {:induction false} RemoveFirstWithoutOccurrence(s: string, pat: string)
    requires forall j :: 0 <= j <= |s| ==> !OccursAt(s, pat, j)
    ensures RemoveFirst(s, pat) == s
    decreases |s|
  {
    if |pat| > 0 && |s| >= |pat| {
      assert !OccursAt(s, pat, 0);
      forall j | 0 <= j <= |s| - 1 ensures !OccursAt(s[1..], pat, j) {
        assert !OccursAt(s, pat, j + 1);
        if j + |pat| <= |s| - 1 {
          assert s[1..][j..j + |pat|] == s[j + 1..j + 1 + |pat|];
        }
      }
      RemoveFirstWithoutOccurrence(s[1..], pat);
    }
  }

  /** `s.split(sep)` for a one-character separator: the pieces between separators. */
  function Split(s: string, sep: char): (parts: seq<string>)
    ensures |parts| >= 1
    ensures forall i :: 0 <= i < |parts| ==> sep !in parts[i]
  {
    if s == [] then [""]
    else
      var rest := Split(s[1..], sep);
      if s[0] == sep then [""] + rest
      else [[s[0]] + rest[0]] + rest[1..]
  }

  /** `parts.join(sep)`. */
  function Join(parts: seq<string>, sep: char): string
    requires |parts| >= 1
  {
    if |parts| == 1 then parts[0] else parts[0] + [sep] + Join(parts[1..], sep)
  }

  /** Joining the pieces of a split with the same separator gives back the input. */
  lemma {:induction false} JoinSplit(s: string, sep: char)
    ensures Join(Split(s, sep), sep) == s
  {
    if s != [] {
      var rest := Split(s[1..], sep);
      JoinSplit(s[1..], sep);
      if s[0] == sep {
        assert Split(s, sep)[1..] == rest;
        assert s == [s[0]] + s[1..];
      } else {
        var parts := Split(s, sep);
        if |rest| == 1 {
          assert s == [s[0]] + rest[0];
        } else {
          assert parts[1..] == rest[1..];
          assert Join(rest, sep) == rest[0] + [sep] + Join(rest[1..], sep);
          assert s == [s[0]] + s[1..];
        }
      }
    }
  }

  /** A split yields one more piece than there are separators. */
  lemma {:induction false} SplitCount(s: string, sep: char)
    ensures |Split(s, sep)| == multiset(s)[sep] + 1
  {
    if s != [] {
      SplitCount(s[1..], sep);
      assert s == [s[0]] + s[1..];
      assert multiset(s) == multiset([s[0]]) + multiset(s[1..]);
    }
  }

  /** The characters JavaScript's `trim` removes: WhiteSpace and LineTerminator. */
  predicate IsWhitespace(c: char)
  {
    c == '\t' || c == '\n' || c == '\U{000B}' || c == '\U{000C}' || c == '\r' || c == ' '
    || c == '\U{00A0}' || c == '\U{1680}' || ('\U{2000}' <= c <= '\U{200A}')
    || c == '\U{2028}' || c == '\U{2029}' || c == '\U{202F}' || c == '\U{205F}'
    || c == '\U{3000}' || c == '\U{FEFF}'
  }

  /** No whitespace at either end. */
  predicate Trimmed(s: string)
  {
    s == [] || (!IsWhitespace(s[0]) && !IsWhitespace(s[|s| - 1]))
  }

  /** The first index at or after `lo` that is not whitespace (or `|s|`). */
  function SkipLeading(s: string, lo: nat): (n: nat)
    requires lo <= |s|
    ensures lo <= n <= |s|
    ensures forall k :: lo <= k < n ==> IsWhitespace(s[k])
    ensures n < |s| ==> !IsWhitespace(s[n])
    decreases |s| - lo
  {
    if lo < |s| && IsWhitespace(s[lo]) then SkipLeading(s, lo + 1) else lo
  }

  /** The end of `s[lo..hi]` once trailing whitespace is dropped. */
  function SkipTrailing(s: string, lo: nat, hi: nat): (m: nat)
    requires lo <= hi <= |s|
    ensures lo <= m <= hi
    ensures forall k :: m <= k < hi ==> IsWhitespace(s[k])
    ensures m > lo ==> !IsWhitespace(s[m - 1])
    decreases hi - lo
  {
    if lo < hi && IsWhitespace(s[hi - 1]) then SkipTrailing(s, lo, hi - 1) else hi
  }

  /**
    `s.trim()`: the longest middle slice of `s` with no whitespace at either end;
    everything cut away is whitespace.
  */
  function Trim(s: string): (r: string)
    ensures Trimmed(r)
    ensures exists i: nat :: OccursAt(s, r, i) && TrimmedAway(s, i, i + |r|)
  {
    var i := SkipLeading(s, 0);
    var j := SkipTrailing(s, i, |s|);
    assert OccursAt(s, s[i..j], i);
    s[i..j]
  }

  /** Everything of `s` outside `s[lo..hi]` is whitespace. */
  predicate TrimmedAway(s: string, lo: nat, hi: nat)
    requires lo <= hi <= |s|
  {
    (forall k :: 0 <= k < lo ==> IsWhitespace(s[k]))
    && (forall k :: hi <= k < |s| ==> IsWhitespace(s[k]))
  }

  /** Trimming an already trimmed string changes nothing. */
  lemma TrimmedIsFixpoint(s: string)
    requires Trimmed(s)
    ensures Trim(s) == s
  {
    assert SkipLeading(s, 0) == 0;
    assert s[0..|s|] == s;
  }

  /** Trimming twice is trimming once. */
  lemma TrimIdempotent(s: string)
    ensures Trim(Trim(s)) == Trim(s)
  {
    TrimmedIsFixpoint(Trim(s));
  }

  /** ASCII lower case; other characters are kept. */
  function ToLower(c: char): char
  {
    if 'A' <= c <= 'Z' then (c as int + 32) as char else c
  }

  function Lower(s: string): (r: string)
    ensures |r| == |s|
    ensures forall i :: 0 <= i < |s| ==> r[i] == ToLower(s[i])
  {
    if s == [] then [] else [ToLower(s[0])] + Lower(s[1..])
  }

  /** `needle` occurs in `hay` ignoring ASCII case: the public search on state and city. */
  predicate ContainsIgnoreCase(hay: string, needle: string)
  {
    exists i :: 0 <= i <= |hay| && OccursAt(Lower(hay), Lower(needle), i)
  }

  /** A value always matches itself, whatever its case. */
  lemma ContainsItself(s: string)
    ensures ContainsIgnoreCase(s, s)
  {
    assert Lower(s)[0..|s|] == Lower(s);
    assert OccursAt(Lower(s), Lower(s), 0);
  }
}
