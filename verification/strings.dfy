/**
 * Character classes and the string primitives of JavaScript's `String`
 * that the modelled code relies on: `trim`, `slice`, and replacement of
 * whitespace runs. A `char` is one Unicode scalar value, so a character
 * outside the Basic Multilingual Plane is one `char` here where JavaScript
 * counts two code units.
 */
module Strings {

  /** `[\u0000-\u001F\u007F]`: the ASCII control characters. */
  predicate IsControl(c: char) {
    c <= '\U{1F}' || c == '\U{7F}'
  }

  /**
   * JavaScript's `\s`, which is also the set `String.prototype.trim`
   * removes: the line terminators, tab, vertical tab, form feed, the byte
   * order mark and the Unicode space separators.
   */
  predicate IsSpace(c: char) {
    c == ' ' || c == '\t' || c == '\n' || c == '\U{B}' || c == '\U{C}' || c == '\r'
    || c == '\U{A0}' || c == '\U{1680}' || ('\U{2000}' <= c <= '\U{200A}')
    || c == '\U{2028}' || c == '\U{2029}' || c == '\U{202F}' || c == '\U{205F}'
    || c == '\U{3000}' || c == '\U{FEFF}'
  }

  predicate IsAngle(c: char) {
    c == '<' || c == '>'
  }

  /** `\w` */
  predicate IsWordChar(c: char) {
    ('a' <= c <= 'z') || ('A' <= c <= 'Z') || ('0' <= c <= '9') || c == '_'
  }

  /**
   * Case folding of a regular expression with the `i` flag and without `u`:
   * only ASCII letters fold onto ASCII letters.
   */
  function ToLowerAscii(c: char): (r: char)
    ensures 'A' <= c <= 'Z' ==> 'a' <= r <= 'z'
    ensures !('A' <= c <= 'Z') ==> r == c
  {
    if 'A' <= c <= 'Z' then (c as int + 32) as char else c
  }

  /** `s` begins with `lowerPrefix` (written in lower case), ignoring ASCII case. */
  predicate StartsWithIgnoreCase(s: string, lowerPrefix: string) {
    |lowerPrefix| <= |s| && forall i :: 0 <= i < |lowerPrefix| ==> ToLowerAscii(s[i]) == lowerPrefix[i]
  }

  /** No two neighbouring characters of `s` are both whitespace. */
  predicate NoAdjacentSpaces(s: string) {
    forall i :: 0 <= i < |s| - 1 ==> !IsSpace(s[i]) || !IsSpace(s[i + 1])
  }

  /** The only whitespace character `s` contains is the plain space. */
  predicate OnlyPlainSpaces(s: string) {
    forall i :: 0 <= i < |s| ==> IsSpace(s[i]) ==> s[i] == ' '
  }

  /** `s` neither starts nor ends with whitespace. */
  predicate IsTrimmed(s: string) {
    s == [] || (!IsSpace(s[0]) && !IsSpace(s[|s| - 1]))
  }

  /** Every character of `r` occurs in `s`. */
  predicate CharsFrom(r: string, s: string) {
    forall c :: c in r ==> c in s
  }

  /** The characters of `s` that satisfy `keep`, in order (a global `replace` of a character class by ''). */
  function Filter(s: string, keep: char -> bool): (r: string)
    ensures forall i :: 0 <= i < |r| ==> keep(r[i])
    ensures CharsFrom(r, s)
    ensures |r| <= |s|
    ensures (forall i :: 0 <= i < |s| ==> keep(s[i])) ==> r == s
    ensures (forall i :: 0 <= i < |s| ==> !keep(s[i])) ==> r == []
    ensures |s| == 1 ==> r == (if keep(s[0]) then s else [])
  {
    if s == [] then []
    else
      var rest := Filter(s[1..], keep);
      assert CharsFrom(rest, s);
      if keep(s[0]) then [s[0]] + rest else rest
  }

  /** Filtering works character by character: the filter of a concatenation is the concatenation of the filters. */
  lemma {:induction false} FilterAppend(a: string, b: string, keep: char -> bool)
    ensures Filter(a + b, keep) == Filter(a, keep) + Filter(b, keep)
  {
    if a == [] {
      assert a + b == b;
    } else {
      assert (a + b)[1..] == a[1..] + b;
      FilterAppend(a[1..], b, keep);
    }
  }

  /** Filtering twice keeps the characters that pass both filters. */
  lemma {:induction false} FilterFilter(s: string, p: char -> bool, q: char -> bool, both: char -> bool)
    requires forall c :: both(c) == (p(c) && q(c))
    ensures Filter(Filter(s, p), q) == Filter(s, both)
  {
    if s != [] {
      assert s == [s[0]] + s[1..];
      FilterAppend([s[0]], s[1..], p);
      FilterAppend([s[0]], s[1..], both);
      FilterAppend(Filter([s[0]], p), Filter(s[1..], p), q);
      FilterFilter(s[1..], p, q, both);
    }
  }

  /** The number of whitespace characters `s` starts with. */
  function LeadingSpaces(s: string): (n: nat)
    ensures n <= |s|
    ensures forall i :: 0 <= i < n ==> IsSpace(s[i])
    ensures n < |s| ==> !IsSpace(s[n])
  {
    if s != [] && IsSpace(s[0]) then 1 + LeadingSpaces(s[1..]) else 0
  }

  /** The number of whitespace characters `s` ends with. */
  function TrailingSpaces(s: string): (n: nat)
    ensures n <= |s|
    ensures forall i :: |s| - n <= i < |s| ==> IsSpace(s[i])
    ensures n < |s| ==> !IsSpace(s[|s| - 1 - n])
  {
    if s != [] && IsSpace(s[|s| - 1]) then 1 + TrailingSpaces(s[..|s| - 1]) else 0
  }

  /** What is left once the `\s+` run at the start of `s` has been consumed, as `CollapseSpaces` consumes each whitespace run. */
  function TrimStart(s: string): (r: string)
    ensures r == [] || !IsSpace(r[0])
    ensures |r| <= |s| && r == s[|s| - |r|..]
  {
    s[LeadingSpaces(s)..]
  }

  /** `s.trim()`: `s` without its leading and trailing whitespace. */
  function Trim(s: string): (r: string)
    ensures IsTrimmed(r)
    ensures LeadingSpaces(s) + |r| <= |s| && r == s[LeadingSpaces(s)..LeadingSpaces(s) + |r|]
    ensures forall i :: LeadingSpaces(s) + |r| <= i < |s| ==> IsSpace(s[i])
  {
    var lo := LeadingSpaces(s);
    var t := s[lo..];
    var hi := |s| - TrailingSpaces(t);
    SuffixOfSliceIsSpace(s, lo);
    s[lo..hi]
  }

  /** The whitespace `t = s[lo..]` ends with is whitespace of `s`. */
  lemma SuffixOfSliceIsSpace(s: string, lo: nat)
    requires lo <= |s|
    ensures var t := s[lo..];
            forall i :: |s| - TrailingSpaces(t) <= i < |s| ==> IsSpace(s[i])
  {
    var t := s[lo..];
    forall i | |s| - TrailingSpaces(t) <= i < |s| ensures IsSpace(s[i]) {
      assert s[i] == t[i - lo];
    }
  }

  /** Trimming leaves alone a text that is already trimmed. */
  lemma TrimmedIsFixpoint(s: string)
    requires IsTrimmed(s)
    ensures Trim(s) == s
  {
    assert LeadingSpaces(s) == 0;
    assert s[0..] == s;
    assert TrailingSpaces(s) == 0;
  }

  /** Slices keep every property that is stated character by character or between neighbours. */
  lemma {:induction false} SliceKeepsCharProperties(s: string, lo: nat, hi: nat)
    requires lo <= hi <= |s|
    ensures NoAdjacentSpaces(s) ==> NoAdjacentSpaces(s[lo..hi])
    ensures OnlyPlainSpaces(s) ==> OnlyPlainSpaces(s[lo..hi])
    ensures CharsFrom(s[lo..hi], s)
  {
    var t := s[lo..hi];
    forall c | c in t ensures c in s {
      var k :| 0 <= k < |t| && t[k] == c;
      assert s[lo + k] == c;
    }
  }

  /** Every character of `Trim(s)` occurs in `s`, and trimming keeps the whitespace properties. */
  lemma TrimKeepsCharProperties(s: string)
    ensures CharsFrom(Trim(s), s)
    ensures NoAdjacentSpaces(s) ==> NoAdjacentSpaces(Trim(s))
    ensures OnlyPlainSpaces(s) ==> OnlyPlainSpaces(Trim(s))
  {
    var lo := LeadingSpaces(s);
    SliceKeepsCharProperties(s, lo, |s| - TrailingSpaces(s[lo..]));
  }

  /**
   * `s.replace(/\s+/g, ' ')`: every maximal run of whitespace becomes a
   * single plain space; every other character is kept in order.
   */
  function CollapseSpaces(s: string): (r: string)
    ensures NoAdjacentSpaces(r)
    ensures OnlyPlainSpaces(r)
    ensures r == [] <==> s == []
    ensures r != [] ==> (IsSpace(r[0]) <==> IsSpace(s[0]))
    decreases |s|
  {
    if s == [] then []
    else if IsSpace(s[0]) then [' '] + CollapseSpaces(TrimStart(s[1..]))
    else [s[0]] + CollapseSpaces(s[1..])
  }

  /** Collapsing introduces no character other than the plain space. */
  lemma {:induction false} CollapseSpacesCharsFrom(s: string)
    ensures forall c :: c in CollapseSpaces(s) ==> c == ' ' || c in s
    decreases |s|
  {
    if s == [] {
    } else if IsSpace(s[0]) {
      var t := TrimStart(s[1..]);
      CollapseSpacesCharsFrom(t);
      SliceKeepsCharProperties(s, |s| - |t|, |s|);
    } else {
      CollapseSpacesCharsFrom(s[1..]);
      SliceKeepsCharProperties(s, 1, |s|);
    }
  }

  predicate IsNotSpace(c: char) {
    !IsSpace(c)
  }

  /** Text that starts with some non-whitespace keeps its leading whitespace count whatever follows it. */
  lemma {:induction false} LeadingSpacesAppend(x: string, y: string)
    requires LeadingSpaces(x) < |x|
    ensures LeadingSpaces(x + y) == LeadingSpaces(x)
    decreases |x|
  {
    if IsSpace(x[0]) {
      assert (x + y)[1..] == x[1..] + y;
      LeadingSpacesAppend(x[1..], y);
    }
  }

  /** A whitespace run followed by text that does not start with whitespace: the run is exactly the leading whitespace. */
  lemma {:induction false} LeadingSpacesOfRun(w: string, b: string)
    requires forall i :: 0 <= i < |w| ==> IsSpace(w[i])
    requires b == [] || !IsSpace(b[0])
    ensures LeadingSpaces(w + b) == |w|
    decreases |w|
  {
    if w == [] {
      assert w + b == b;
    } else {
      assert (w + b)[1..] == w[1..] + b;
      LeadingSpacesOfRun(w[1..], b);
    }
  }

  /** Trimming the start of text that holds some non-whitespace is unaffected by what follows, and keeps its last character. */
  lemma TrimStartAppend(x: string, y: string)
    requires LeadingSpaces(x) < |x|
    ensures TrimStart(x + y) == TrimStart(x) + y
    ensures TrimStart(x) != [] && TrimStart(x)[|TrimStart(x)| - 1] == x[|x| - 1]
  {
    LeadingSpacesAppend(x, y);
    var n := LeadingSpaces(x);
    assert (x + y)[n..] == x[n..] + y;
  }

  /** Collapsing works piece by piece across a boundary that follows a non-whitespace character. */
  lemma {:induction false} CollapseSpacesAppend(a: string, b: string)
    requires a == [] || !IsSpace(a[|a| - 1])
    ensures CollapseSpaces(a + b) == CollapseSpaces(a) + CollapseSpaces(b)
    decreases |a|, 1
  {
    if a == [] {
      assert a + b == b;
    } else if IsSpace(a[0]) {
      CollapseSpacesAppendAfterSpace(a, b);
    } else {
      var x := a[1..];
      assert a == [a[0]] + x && a + b == [a[0]] + (x + b);
      assert x == [] || x[|x| - 1] == a[|a| - 1];
      CollapseSpacesCons(a[0], x);
      CollapseSpacesCons(a[0], x + b);
      CollapseSpacesAppend(x, b);
    }
  }

  /** A non-whitespace character in front is kept as it is. */
  lemma CollapseSpacesCons(c: char, rest: string)
    requires !IsSpace(c)
    ensures CollapseSpaces([c] + rest) == [c] + CollapseSpaces(rest)
  {
    assert ([c] + rest)[1..] == rest;
  }

  /** The step of `CollapseSpacesAppend` for text that opens with whitespace. */
  lemma {:induction false} CollapseSpacesAppendAfterSpace(a: string, b: string)
    requires |a| >= 2 && IsSpace(a[0]) && !IsSpace(a[|a| - 1])
    ensures CollapseSpaces(a + b) == CollapseSpaces(a) + CollapseSpaces(b)
    decreases |a|, 0
  {
    var x := a[1..];
    assert (a + b)[0] == a[0] && (a + b)[1..] == x + b;
    assert x[|x| - 1] == a[|a| - 1];
    TrimStartAppend(x, b);
    CollapseSpacesAppend(TrimStart(x), b);
  }

  /** A whitespace run in front of non-whitespace collapses to one plain space. */
  lemma CollapseSpacesOfRun(w: string, b: string)
    requires w != [] && forall i :: 0 <= i < |w| ==> IsSpace(w[i])
    requires b == [] || !IsSpace(b[0])
    ensures CollapseSpaces(w + b) == [' '] + CollapseSpaces(b)
  {
    var x := w[1..];
    assert (w + b)[1..] == x + b;
    LeadingSpacesOfRun(x, b);
    assert (x + b)[|x|..] == b;
  }

  /** Leading whitespace holds no non-whitespace character. */
  lemma FilterDropsLeadingSpaces(x: string)
    ensures Filter(x, IsNotSpace) == Filter(TrimStart(x), IsNotSpace)
  {
    var n := LeadingSpaces(x);
    assert x == x[..n] + x[n..];
    FilterAppend(x[..n], x[n..], IsNotSpace);
  }

  /** Text made only of whitespace holds no non-whitespace character. */
  lemma FilterOfSpaces(s: string)
    requires forall i :: 0 <= i < |s| ==> IsSpace(s[i])
    ensures Filter(s, IsNotSpace) == []
  {
    assert forall i :: 0 <= i < |s| ==> !IsNotSpace(s[i]);
  }

  /** Dropping a prefix that nothing in passes the filter leaves the filter unchanged. */
  lemma FilterDropPrefix(s: string, lo: nat, keep: char -> bool)
    requires lo <= |s| && Filter(s[..lo], keep) == []
    ensures Filter(s[lo..], keep) == Filter(s, keep)
  {
    assert s == s[..lo] + s[lo..];
    FilterAppend(s[..lo], s[lo..], keep);
  }

  /** Dropping a suffix that nothing in passes the filter leaves the filter unchanged. */
  lemma FilterDropSuffix(s: string, hi: nat, keep: char -> bool)
    requires hi <= |s| && Filter(s[hi..], keep) == []
    ensures Filter(s[..hi], keep) == Filter(s, keep)
  {
    assert s == s[..hi] + s[hi..];
    FilterAppend(s[..hi], s[hi..], keep);
  }

  /** Trimming removes only whitespace: the non-whitespace characters are kept, in order. */
  lemma TrimKeepsWords(s: string)
    ensures Filter(Trim(s), IsNotSpace) == Filter(s, IsNotSpace)
  {
    var lo := LeadingSpaces(s);
    var t := s[lo..];
    var n := |Trim(s)|;
    FilterOfSpaces(s[..lo]);
    FilterDropPrefix(s, lo, IsNotSpace);
    assert Trim(s) == t[..n];
    forall i | 0 <= i < |t[n..]| ensures IsSpace(t[n..][i]) {
      assert t[n..][i] == s[lo + n + i];
    }
    FilterOfSpaces(t[n..]);
    FilterDropSuffix(t, n, IsNotSpace);
  }

  /** Collapsing keeps every non-whitespace character, in order: only whitespace changes. */
  lemma {:induction false} CollapseSpacesKeepsWords(s: string)
    ensures Filter(CollapseSpaces(s), IsNotSpace) == Filter(s, IsNotSpace)
    decreases |s|
  {
    if s != [] {
      assert s == [s[0]] + s[1..];
      FilterAppend([s[0]], s[1..], IsNotSpace);
      if IsSpace(s[0]) {
        var t := TrimStart(s[1..]);
        FilterDropsLeadingSpaces(s[1..]);
        CollapseSpacesKeepsWords(t);
        FilterAppend([' '], CollapseSpaces(t), IsNotSpace);
      } else {
        CollapseSpacesKeepsWords(s[1..]);
        FilterAppend([s[0]], CollapseSpaces(s[1..]), IsNotSpace);
      }
    }
  }

  /** Text whose whitespace is already collapsed is left as it is. */
  lemma {:induction false} CollapseSpacesFixpoint(s: string)
    requires NoAdjacentSpaces(s) && OnlyPlainSpaces(s)
    ensures CollapseSpaces(s) == s
    decreases |s|
  {
    if s != [] {
      SliceKeepsCharProperties(s, 1, |s|);
      if IsSpace(s[0]) {
        assert s[1..] == [] || !IsSpace(s[1]);
        assert TrimStart(s[1..]) == s[1..];
      }
      CollapseSpacesFixpoint(s[1..]);
    }
  }

  /** `s.slice(0, n)` for a positive `n`: the first `n` characters, or all of `s` when it is shorter. */
  function Prefix(s: string, n: nat): (r: string)
    ensures r <= s
    ensures |r| == if n < |s| then n else |s|
  {
    if n < |s| then s[..n] else s
  }

  /** `s.indexOf(c)` for a character known to occur in `s`. */
  function IndexOf(s: string, c: char): (k: nat)
    requires c in s
    ensures k < |s| && s[k] == c
    ensures forall i :: 0 <= i < k ==> s[i] != c
  {
    if s[0] == c then 0 else 1 + IndexOf(s[1..], c)
  }
}
