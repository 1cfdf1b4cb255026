/** The string operations the reconciliation engine borrows from Python's
    `str`: `split(c)[0]`, `lower()`, `replace`, `strip`, `startswith`,
    `endswith` and `join`. Strings are sequences of characters. */
module Text {

  /** `s.split(c)[0]`: the text before the first `c`, or all of `s`. */
  function BeforeFirst(s: string, c: char): (r: string)
    ensures c !in r
    ensures r <= s
    ensures |r| == |s| || s[|r|] == c
  {
    if |s| == 0 then ""
    else if s[0] == c then ""
    else [s[0]] + BeforeFirst(s[1..], c)
  }

  /** The prefix the three properties of `BeforeFirst` describe is unique:
      they characterise `split(c)[0]` completely. */
  lemma BeforeFirstUnique(s: string, c: char, r: string)
    requires c !in r && r <= s && (|r| == |s| || s[|r|] == c)
    ensures r == BeforeFirst(s, c)
  {
    var b := BeforeFirst(s, c);
    assert forall k :: 0 <= k < |b| ==> s[k] == b[k] && s[k] != c;
    assert forall k :: 0 <= k < |r| ==> s[k] == r[k] && s[k] != c;
    assert |r| == |b|;
  }

  /** Splitting again at the same separator changes nothing. */
  lemma BeforeFirstIdempotent(s: string, c: char)
    ensures BeforeFirst(BeforeFirst(s, c), c) == BeforeFirst(s, c)
  {
    var b := BeforeFirst(s, c);
    BeforeFirstUnique(b, c, b);
  }

  predicate IsUpper(ch: char) {
    'A' <= ch <= 'Z'
  }

  function LowerChar(ch: char): (r: char)
  {
    if IsUpper(ch) then (ch as int - 'A' as int + 'a' as int) as char else ch
  }

  /** `s.lower()` on the ASCII letters. */
  function Lower(s: string): (r: string)
    ensures |r| == |s|
    ensures forall i :: 0 <= i < |s| ==> r[i] == LowerChar(s[i])
  {
    seq(|s|, i requires 0 <= i < |s| => LowerChar(s[i]))
  }

  /** Lower-cased text has no upper-case letter, keeps every non-letter and
      is left alone by a second lower-casing. */
  lemma LowerProperties(s: string)
    ensures forall i :: 0 <= i < |s| ==> !IsUpper(Lower(s)[i])
    ensures forall i :: 0 <= i < |s| ==> (Lower(s)[i] == s[i] <==> !IsUpper(s[i]))
    ensures Lower(Lower(s)) == Lower(s)
  {
  }

  /** Lower-casing never creates or removes a separator that is not a letter. */
  lemma LowerKeepsNonLetter(s: string, c: char)
    requires !IsUpper(c) && !('a' <= c <= 'z')
    ensures c in Lower(s) <==> c in s
  {
    if c in s {
      var i :| 0 <= i < |s| && s[i] == c;
      assert Lower(s)[i] == c;
    }
    if c in Lower(s) {
      var i :| 0 <= i < |s| && Lower(s)[i] == c;
      assert s[i] == c;
    }
  }

  /** `s.replace(c, d)` for single characters. */
  function ReplaceChar(s: string, c: char, d: char): (r: string)
    ensures |r| == |s|
    ensures forall i :: 0 <= i < |s| ==> r[i] == (if s[i] == c then d else s[i])
  {
    seq(|s|, i requires 0 <= i < |s| => if s[i] == c then d else s[i])
  }

  predicate StartsWith(s: string, prefix: string) {
    |prefix| <= |s| && s[..|prefix|] == prefix
  }

  predicate EndsWith(s: string, suffix: string) {
    |suffix| <= |s| && s[|s| - |suffix|..] == suffix
  }

  /** Where the run of `chars` that begins at `from` ends: every character
      from `from` up to the result is in `chars`, the one after it is not. */
  function RunEnd(s: string, chars: set<char>, from: nat): (n: nat)
    requires from <= |s|
    ensures from <= n <= |s|
    ensures forall k :: from <= k < n ==> s[k] in chars
    ensures n < |s| ==> s[n] !in chars
    decreases |s| - from
  {
    if from < |s| && s[from] in chars then RunEnd(s, chars, from + 1) else from
  }

  /** Where the run of `chars` that ends just before `to` begins, looking no
      further back than `lo`. */
  function RunStart(s: string, chars: set<char>, lo: nat, to: nat): (n: nat)
    requires lo <= to <= |s|
    ensures lo <= n <= to
    ensures forall k :: n <= k < to ==> s[k] in chars
    ensures n > lo ==> s[n - 1] !in chars
  {
    if to > lo && s[to - 1] in chars then RunStart(s, chars, lo, to - 1) else to
  }

  /** `s.strip(chars)`: the slice of `s` between its leading and its trailing
      run of `chars`; what is left neither starts nor ends with one of them,
      and it is empty exactly when every character of `s` is in `chars`. */
  function Strip(s: string, chars: set<char>): (r: string)
    ensures |r| <= |s|
    ensures forall i :: 0 <= i < |r| ==> r[i] in s
    ensures |r| > 0 ==> r[0] !in chars && r[|r| - 1] !in chars
    ensures var lead := RunEnd(s, chars, 0);
      && lead + |r| <= |s|
      && r == s[lead..lead + |r|]
      && (forall k :: 0 <= k < lead ==> s[k] in chars)
      && (forall k :: lead + |r| <= k < |s| ==> s[k] in chars)
    ensures r == "" <==> forall k :: 0 <= k < |s| ==> s[k] in chars
  {
    var lead := RunEnd(s, chars, 0);
    var end := RunStart(s, chars, lead, |s|);
    assert lead < end ==> s[lead..end][0] == s[lead];
    s[lead..end]
  }

  /** Stripping a string that has nothing to strip at either end is the identity. */
  lemma StripNothing(s: string, chars: set<char>)
    requires |s| > 0 ==> s[0] !in chars && s[|s| - 1] !in chars
    ensures Strip(s, chars) == s
  {
  }

  /** `sep.join(parts)`. */
  function Join(parts: seq<string>, sep: string): (r: string)
  {
    if |parts| == 0 then ""
    else if |parts| == 1 then parts[0]
    else parts[0] + sep + Join(parts[1..], sep)
  }
}
