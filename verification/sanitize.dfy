/**
 * The text and URL sanitiser (src/utils/sanitize.js): total functions from a
 * loosely typed value to a string that carries no control characters, no
 * angle brackets and no script tags.
 */
module Sanitize {
  import opened Strings
  import opened JsValues

  /** `s` contains no control character and no angle bracket. */
  predicate IsSafeText(s: string) {
    forall i :: 0 <= i < |s| ==> !IsControl(s[i]) && !IsAngle(s[i])
  }

  /** A single cleaned line: safe, trimmed, and every whitespace run collapsed to one plain space. */
  predicate IsCleanLine(s: string) {
    IsSafeText(s) && NoAdjacentSpaces(s) && OnlyPlainSpaces(s) && IsTrimmed(s)
  }

  /**
   * Length of a match of `<\/?script[^>]*>` (case-insensitive) at the start
   * of `s`, or 0 when none starts there. `[^>]*` cannot cross a `>`, so a
   * match ends at the first `>` after the word `script`.
   */
  function ScriptTagAt(s: string): (n: nat)
    ensures n <= |s|
    ensures n > 0 ==> s[0] == '<' && s[n - 1] == '>'
    ensures n > 0 ==> (StartsWithIgnoreCase(s[1..], "script") || StartsWithIgnoreCase(s[1..], "/script"))
    ensures n > 0 ==> '>' !in s[..n - 1]
  {
    if |s| == 0 || s[0] != '<' then 0
    else
      var j := if |s| > 1 && s[1] == '/' then 2 else 1;
      if StartsWithIgnoreCase(s[j..], "script") && '>' in s[j + 6..] then
        j + 6 + IndexOf(s[j + 6..], '>') + 1
      else 0
  }

  /** Every opening or closing script tag that is closed by a `>` somewhere later is matched. */
  lemma ScriptTagFound(s: string)
    requires StartsWithIgnoreCase(s, "<script") || StartsWithIgnoreCase(s, "</script")
    requires '>' in s
    ensures ScriptTagAt(s) > 0
  {
    var word := if StartsWithIgnoreCase(s, "<script") then "<script" else "</script";
    var j := |word| - 6;
    assert j == if |s| > 1 && s[1] == '/' then 2 else 1 by {
      assert ToLowerAscii(s[1]) == word[1];
    }
    StartsWithIgnoreCaseShift(s, word, j);
    assert word[j..] == "script";
    NoCloseInWord(s, word);
    var k := IndexOf(s, '>');
    assert s[j + 6..][k - j - 6] == '>';
  }

  /** Dropping the same number of characters from the text and from the prefix keeps the match. */
  lemma StartsWithIgnoreCaseShift(s: string, p: string, j: nat)
    requires StartsWithIgnoreCase(s, p) && j <= |p|
    ensures StartsWithIgnoreCase(s[j..], p[j..])
  {
    forall i | 0 <= i < |p| - j ensures ToLowerAscii(s[j..][i]) == p[j..][i] {
      assert s[j..][i] == s[j + i] && p[j..][i] == p[j + i];
    }
  }

  /** Characters that match a prefix without `>` are not `>`. */
  lemma NoCloseInWord(s: string, p: string)
    requires StartsWithIgnoreCase(s, p) && '>' !in p
    ensures forall i :: 0 <= i < |p| ==> s[i] != '>'
  {
    forall i | 0 <= i < |p| ensures s[i] != '>' {
      assert ToLowerAscii(s[i]) == p[i];
    }
  }

  /** `s.replace(/<\/?script[^>]*>/gi, '')`: matches are removed scanning left to right. */
  function StripScriptTags(s: string): (r: string)
    ensures CharsFrom(r, s)
    ensures '<' !in s ==> r == s
    decreases |s|
  {
    if s == [] then []
    else
      var n := ScriptTagAt(s);
      if n > 0 then
        var rest := StripScriptTags(s[n..]);
        SliceKeepsCharProperties(s, n, |s|);
        rest
      else
        var rest := StripScriptTags(s[1..]);
        SliceKeepsCharProperties(s, 1, |s|);
        [s[0]] + rest
  }

  /** Text in which no script tag starts at any position loses nothing. */
  lemma {:induction false} StripScriptTagsWithoutTags(s: string)
    requires forall i :: 0 <= i < |s| ==> ScriptTagAt(s[i..]) == 0
    ensures StripScriptTags(s) == s
    decreases |s|
  {
    if s != [] {
      assert ScriptTagAt(s[0..]) == 0 && s[0..] == s;
      forall i | 0 <= i < |s[1..]| ensures ScriptTagAt(s[1..][i..]) == 0 {
        assert s[1..][i..] == s[i + 1..];
      }
      StripScriptTagsWithoutTags(s[1..]);
    }
  }

  /** A character other than `<` cannot start a match, so it is kept and the scan moves on. */
  lemma StripScriptTagsCons(c: char, rest: string)
    requires c != '<'
    ensures StripScriptTags([c] + rest) == [c] + StripScriptTags(rest)
  {
    var s := [c] + rest;
    assert s[0] == c && s[1..] == rest;
    assert ScriptTagAt(s) == 0;
  }

  /** A `<` (or any character) that starts no match is kept, and the scan moves on to the next character. */
  lemma StripScriptTagsNoMatch(s: string)
    requires s != [] && ScriptTagAt(s) == 0
    ensures StripScriptTags(s) == [s[0]] + StripScriptTags(s[1..])
  {
  }

  /** Text without `<` in front of the rest is kept as it is, and only the rest is stripped. */
  lemma {:induction false} StripScriptTagsPlainPrefix(a: string, b: string)
    requires '<' !in a
    ensures StripScriptTags(a + b) == a + StripScriptTags(b)
    decreases |a|
  {
    if a == [] {
      assert a + b == b;
    } else {
      assert '<' !in a[1..] by {
        forall i | 0 <= i < |a| - 1 ensures a[1..][i] != '<' {
          assert a[1..][i] == a[i + 1];
        }
      }
      StripScriptTagsPlainPrefix(a[1..], b);
      PlainPrefixStep(a, b);
    }
  }

  /** The step of `StripScriptTagsPlainPrefix`: one more character without `<` in front. */
  lemma PlainPrefixStep(a: string, b: string)
    requires a != [] && a[0] != '<'
    requires StripScriptTags(a[1..] + b) == a[1..] + StripScriptTags(b)
    ensures StripScriptTags(a + b) == a + StripScriptTags(b)
  {
    var c, x := a[0], a[1..];
    var rest := StripScriptTags(b);
    HeadThenRest(a, b, rest);
    StripScriptTagsCons(c, x + b);
  }

  /** `a` is its first character followed by the rest, also in front of `b` and of `y`. */
  lemma HeadThenRest(a: string, b: string, y: string)
    requires a != []
    ensures a + b == [a[0]] + (a[1..] + b)
    ensures [a[0]] + (a[1..] + y) == a + y
  {
    assert a == [a[0]] + a[1..];
  }

  /** A script tag at the start is removed whole, and the scan resumes right after it. */
  lemma StripScriptTagsAtTag(t: string, b: string)
    requires t != [] && ScriptTagAt(t + b) == |t|
    ensures StripScriptTags(t + b) == StripScriptTags(b)
  {
    assert (t + b)[|t|..] == b;
  }

  /** The match at the start of `<script>x` is the eight characters of `<script>`. */
  lemma OpenTagMatch()
    ensures ScriptTagAt("<script>x") == 8
  {
    var tag := "<script>x";
    assert StartsWithIgnoreCase(tag, "<script");
    assert tag[7] == '>';
    ScriptTagFound(tag);
    assert tag[ScriptTagAt(tag) - 1] == '>';
  }

  /** `a<script>x` loses its script tag and keeps the text around it. */
  lemma StripScriptTagExample()
    ensures StripScriptTags("a<script>x") == "ax"
  {
    ExampleParts();
    StripScriptTagsPlainPrefix("a", "<script>x");
    OpenTagMatch();
    StripScriptTagsAtTag("<script>", "x");
  }

  /** In `1 < 2 <script>x` the first `<` starts no match and is kept; only the tag further on is removed. */
  lemma StripScriptTagNoMatchExample()
    ensures StripScriptTags("1 < 2 <script>x") == "1 < 2 x"
  {
    NoMatchExampleParts();
    StripScriptTagsPlainPrefix("1 ", "< 2 <script>x");
    StrayAngleKept();
  }

  /** The stray `<` of `< 2 <script>x` is kept and the tag after it removed. */
  lemma StrayAngleKept()
    ensures StripScriptTags("< 2 <script>x") == "< 2 x"
  {
    var rest := "< 2 <script>x";
    NoMatchExampleParts();
    assert ScriptTagAt(rest) == 0 by {
      assert ToLowerAscii(rest[1]) != 's' && rest[1] != '/';
    }
    StripScriptTagsNoMatch(rest);
    TextBeforeTagKept();
  }

  /** The text ` 2 ` in front of `<script>x` is kept and the tag removed. */
  lemma TextBeforeTagKept()
    ensures StripScriptTags(" 2 <script>x") == " 2 x"
  {
    NoMatchExampleParts();
    StripScriptTagsPlainPrefix(" 2 ", "<script>x");
    TagThenText();
  }

  lemma NoMatchExampleParts()
    ensures "1 < 2 <script>x" == "1 " + "< 2 <script>x"
    ensures "1 " + "< 2 x" == "1 < 2 x"
    ensures "< 2 <script>x"[1..] == " 2 <script>x"
    ensures ['<'] + " 2 x" == "< 2 x"
    ensures " 2 <script>x" == " 2 " + "<script>x"
    ensures " 2 " + "x" == " 2 x"
  {
  }

  /** `<script>x` loses its tag and keeps the `x`. */
  lemma TagThenText()
    ensures StripScriptTags("<script>x") == "x"
  {
    ExampleParts();
    OpenTagMatch();
    StripScriptTagsAtTag("<script>", "x");
  }

  lemma ExampleParts()
    ensures "a<script>x" == "a" + "<script>x"
    ensures "<script>x" == "<script>" + "x"
  {
  }

  predicate IsNotControl(c: char) {
    !IsControl(c)
  }

  predicate IsNotAngle(c: char) {
    !IsAngle(c)
  }

  /** A character that survives the strip when no script tag is involved. */
  predicate IsSafeChar(c: char) {
    !IsControl(c) && !IsAngle(c)
  }

  /**
   * `stripDangerousSequences`: control characters are removed first, then
   * script tags, then every remaining angle bracket.
   */
  function StripDangerousSequences(s: string): (r: string)
    ensures IsSafeText(r)
    ensures CharsFrom(r, s)
    ensures IsSafeText(s) ==> r == s
    ensures '<' !in s ==> r == Filter(s, IsSafeChar)
  {
    var noControl := Filter(s, IsNotControl);
    var noScript := StripScriptTags(noControl);
    var r := Filter(noScript, IsNotAngle);
    assert forall c :: c in r ==> c in noControl;
    assert IsSafeText(r) by {
      forall i | 0 <= i < |r| ensures !IsControl(r[i]) {
        assert r[i] in noControl;
        var k :| 0 <= k < |noControl| && noControl[k] == r[i];
      }
    }
    if '<' !in s then
      assert '<' !in noControl;
      FilterFilter(s, IsNotControl, IsNotAngle, IsSafeChar);
      r
    else r
  }

  /** `line.replace(/\s+/g, ' ').trim()`: only whitespace changes, into single plain spaces between the words. */
  function CleanLine(s: string): (r: string)
    ensures IsTrimmed(r) && NoAdjacentSpaces(r) && OnlyPlainSpaces(r)
  {
    var c := CollapseSpaces(s);
    TrimKeepsCharProperties(c);
    Trim(c)
  }

  /** Cleaning a line changes only its whitespace: the non-whitespace characters are kept, in order. */
  lemma CleanLineKeepsWords(s: string)
    ensures Filter(CleanLine(s), IsNotSpace) == Filter(s, IsNotSpace)
  {
    CollapseSpacesKeepsWords(s);
    TrimKeepsWords(CollapseSpaces(s));
  }

  /** Text with no angle bracket whose only control characters are whitespace. */
  predicate HasOnlySpaceControls(s: string) {
    forall i :: 0 <= i < |s| ==> !IsAngle(s[i]) && (IsControl(s[i]) ==> IsSpace(s[i]))
  }

  /** Cleaning text whose control characters are all whitespace yields a clean line. */
  lemma CleanLineIsClean(s: string)
    requires HasOnlySpaceControls(s)
    ensures IsCleanLine(CleanLine(s))
  {
    var c := CollapseSpaces(s);
    CollapseSpacesCharsFrom(s);
    TrimKeepsCharProperties(c);
    var r := Trim(c);
    forall i | 0 <= i < |r| ensures !IsControl(r[i]) && !IsAngle(r[i]) {
      assert r[i] in c;
      if r[i] != ' ' {
        var k :| 0 <= k < |s| && s[k] == r[i];
      }
    }
  }

  /** A clean line is a fixed point of cleaning. */
  lemma CleanLineFixpoint(s: string)
    requires IsCleanLine(s)
    ensures CleanLine(s) == s
  {
    CollapseSpacesFixpoint(s);
    TrimmedIsFixpoint(s);
  }

  /** The `maxLength` option is in force: `typeof maxLength === 'number' && maxLength > 0`. */
  predicate IsLengthLimit(maxLength: JsValue) {
    maxLength.Num? && maxLength.n > 0.0
  }

  /** `if (limit in force && s.length > maxLength) s = s.slice(0, maxLength)` */
  function TruncateTo(s: string, maxLength: JsValue): (r: string)
    ensures r <= s
    ensures IsLengthLimit(maxLength) ==> |r| as real <= maxLength.n
    ensures IsLengthLimit(maxLength) && |s| as real > maxLength.n ==> |r| == maxLength.n.Floor
    ensures !IsLengthLimit(maxLength) || |s| as real <= maxLength.n ==> r == s
  {
    if IsLengthLimit(maxLength) && |s| as real > maxLength.n then Prefix(s, maxLength.n.Floor as nat)
    else s
  }

  /** A prefix of a clean line keeps every property except, possibly, the trailing-space one. */
  lemma PrefixOfCleanLine(s: string, r: string)
    requires IsCleanLine(s) && r <= s
    ensures IsSafeText(r) && NoAdjacentSpaces(r) && OnlyPlainSpaces(r)
    ensures r == [] || !IsSpace(r[0])
  {
    assert r == s[..|r|];
    SliceKeepsCharProperties(s, 0, |r|);
  }

  /** `sanitizeSingleLineText(value, { maxLength })` */
  function SanitizeSingleLineText(value: JsValue, maxLength: JsValue): (r: string)
    ensures !value.Str? ==> r == ""
    ensures IsSafeText(r)
    ensures NoAdjacentSpaces(r) && OnlyPlainSpaces(r)
    ensures r == [] || !IsSpace(r[0])
    ensures IsLengthLimit(maxLength) ==> |r| as real <= maxLength.n
    ensures !IsLengthLimit(maxLength) ==> IsCleanLine(r)
    ensures !IsCleanLine(r) ==> IsLengthLimit(maxLength) && |r| == maxLength.n.Floor
    ensures value.Str? && IsCleanLine(value.s) ==> r == TruncateTo(value.s, maxLength)
    ensures value.Str? && !IsLengthLimit(maxLength) ==>
              Filter(r, IsNotSpace) == Filter(StripDangerousSequences(value.s), IsNotSpace)
  {
    if !value.Str? then ""
    else
      var cleaned := CleanLine(StripDangerousSequences(value.s));
      CleanLineIsClean(StripDangerousSequences(value.s));
      var r := TruncateTo(cleaned, maxLength);
      PrefixOfCleanLine(cleaned, r);
      CleanLineKeepsWords(StripDangerousSequences(value.s));
      if IsCleanLine(value.s) then
        CleanLineFixpoint(value.s);
        r
      else r
  }

  /** Without a length limit, sanitising an already sanitised line changes nothing. */
  lemma SingleLineIdempotent(value: JsValue, maxLength: JsValue)
    requires !IsLengthLimit(maxLength)
    ensures var once := SanitizeSingleLineText(value, maxLength);
            SanitizeSingleLineText(Str(once), maxLength) == once
  {
    var once := SanitizeSingleLineText(value, maxLength);
    CleanLineFixpoint(once);
  }

  /** `text.split(/\r?\n/)`: pieces between line feeds, each without the carriage return before its line feed. */
  function SplitLines(s: string): (lines: seq<string>)
    ensures |lines| >= 1
    ensures forall i :: 0 <= i < |lines| ==> '\n' !in lines[i]
    ensures forall i :: 0 <= i < |lines| ==> CharsFrom(lines[i], s)
    ensures '\n' !in s ==> lines == [s]
    decreases |s|
  {
    if '\n' !in s then [s]
    else
      var k := IndexOf(s, '\n');
      var line := if k > 0 && s[k - 1] == '\r' then s[..k - 1] else s[..k];
      SliceKeepsCharProperties(s, 0, |line|);
      SliceKeepsCharProperties(s, k + 1, |s|);
      assert '\n' !in line by {
        assert forall c :: c in line ==> c in s[..k];
      }
      var rest := SplitLines(s[k + 1..]);
      assert forall i :: 0 <= i < |rest| ==> CharsFrom(rest[i], s);
      [line] + rest
  }

  /** One step of the split: a line without a line feed, and not ending in a carriage return, followed by a line feed. */
  lemma SplitLinesAfterLine(head: string, tail: string)
    requires '\n' !in head
    requires head == [] || head[|head| - 1] != '\r'
    ensures SplitLines(head + "\n" + tail) == [head] + SplitLines(tail)
  {
    var s := head + "\n" + tail;
    var k := |head|;
    assert s[k] == '\n' && s[k] in s;
    forall i | 0 <= i < k ensures s[i] != '\n' {
      assert s[i] == head[i];
    }
    assert IndexOf(s, '\n') == k;
    assert k == 0 || s[k - 1] == head[k - 1];
    assert s[..k] == head && s[k + 1..] == tail;
  }

  /** The `\r?` of the split: a carriage return right before a line feed ends the line and is dropped with it. */
  lemma SplitLinesAfterCrLine(head: string, tail: string)
    requires '\n' !in head
    ensures SplitLines(head + "\r\n" + tail) == [head] + SplitLines(tail)
  {
    var s := head + "\r\n" + tail;
    var k := |head| + 1;
    assert s[k] == '\n' && s[k] in s;
    forall i | 0 <= i < k ensures s[i] != '\n' {
      if i < |head| {
        assert s[i] == head[i];
      }
    }
    assert IndexOf(s, '\n') == k;
    assert s[k - 1] == '\r';
    assert s[..k - 1] == head && s[k + 1..] == tail;
  }

  /** One step of the join. */
  lemma JoinLinesCons(head: string, rest: seq<string>)
    requires rest != []
    ensures JoinLines([head] + rest) == head + "\n" + JoinLines(rest)
  {
    assert ([head] + rest)[1..] == rest;
  }

  /** Splitting joined lines gives the lines back, provided none holds a line feed and none but the last ends in a carriage return. */
  lemma {:induction false} SplitJoinedLines(lines: seq<string>)
    requires |lines| >= 1
    requires forall i :: 0 <= i < |lines| ==> '\n' !in lines[i]
    requires forall i :: 0 <= i < |lines| - 1 ==> lines[i] == [] || lines[i][|lines[i]| - 1] != '\r'
    ensures SplitLines(JoinLines(lines)) == lines
  {
    if |lines| > 1 {
      var rest := lines[1..];
      assert lines == [lines[0]] + rest;
      JoinLinesCons(lines[0], rest);
      SplitLinesAfterLine(lines[0], JoinLines(rest));
      SplitJoinedLines(rest);
    }
  }

  /** Joining the pieces of a text without carriage returns gives the text back. */
  lemma {:induction false} JoinSplitLines(s: string)
    requires '\r' !in s
    ensures JoinLines(SplitLines(s)) == s
    decreases |s|
  {
    if '\n' in s {
      var k := IndexOf(s, '\n');
      var head := s[..k];
      var tail := s[k + 1..];
      assert s == head + "\n" + tail;
      assert '\n' !in head && '\r' !in head && '\r' !in tail by {
        forall c | c in head ensures c in s && c != '\n' {}
        forall c | c in tail ensures c in s {}
      }
      SplitLinesAfterLine(head, tail);
      JoinSplitLines(tail);
      JoinLinesCons(head, SplitLines(tail));
    }
  }

  /** `.map(CleanLine).filter((line) => line)` */
  function CleanLines(lines: seq<string>): (r: seq<string>)
    ensures |r| <= |lines|
    ensures forall i :: 0 <= i < |r| ==> r[i] != ""
    ensures |lines| == 1 ==> r == (if CleanLine(lines[0]) != "" then [CleanLine(lines[0])] else [])
  {
    if lines == [] then []
    else
      var line := CleanLine(lines[0]);
      if line != "" then [line] + CleanLines(lines[1..]) else CleanLines(lines[1..])
  }

  /** Cleaning lines works line by line: each line is cleaned on its own and kept, in order, when not blank. */
  lemma {:induction false} CleanLinesAppend(a: seq<string>, b: seq<string>)
    ensures CleanLines(a + b) == CleanLines(a) + CleanLines(b)
  {
    if a == [] {
      assert a + b == b;
    } else {
      var x, t := a[0], a[1..];
      LinesHeadThenRest(a, b);
      calc {
        CleanLines(a + b);
        CleanLines([x] + (t + b));
      == { CleanLinesCons(x, t + b); }
        CleanLines([x]) + CleanLines(t + b);
      == { CleanLinesAppend(t, b); }
        CleanLines([x]) + (CleanLines(t) + CleanLines(b));
        (CleanLines([x]) + CleanLines(t)) + CleanLines(b);
      == { CleanLinesCons(x, t); }
        CleanLines(a) + CleanLines(b);
      }
    }
  }

  /** `a` is its first line followed by the rest, also in front of `b`. */
  lemma LinesHeadThenRest(a: seq<string>, b: seq<string>)
    requires a != []
    ensures a == [a[0]] + a[1..] && a + b == [a[0]] + (a[1..] + b)
  {
  }

  /** The first line is cleaned and kept or dropped on its own. */
  lemma CleanLinesCons(x: string, rest: seq<string>)
    ensures CleanLines([x] + rest) == CleanLines([x]) + CleanLines(rest)
  {
    assert ([x] + rest)[0] == x && ([x] + rest)[1..] == rest;
  }

  /** `lines.join('\n')` */
  function JoinLines(lines: seq<string>): (r: string)
    ensures |lines| >= 1 ==> lines[0] <= r
    ensures (forall i :: 0 <= i < |lines| ==> '\n' !in lines[i]) ==> ('\n' in r <==> |lines| > 1)
  {
    if lines == [] then ""
    else if |lines| == 1 then lines[0]
    else lines[0] + "\n" + JoinLines(lines[1..])
  }

  /**
   * `sanitizeMultilineText(value, { maxLength })` as written: the line split
   * runs after control characters, line feeds included, have been stripped.
   */
  function SanitizeMultilineText(value: JsValue, maxLength: JsValue): (r: string)
    ensures !value.Str? ==> r == ""
    ensures IsSafeText(r)
    ensures '\n' !in r
    ensures IsLengthLimit(maxLength) ==> |r| as real <= maxLength.n
  {
    if !value.Str? then ""
    else
      var stripped := StripDangerousSequences(value.s);
      var r := TruncateTo(JoinLines(CleanLines(SplitLines(stripped))), maxLength);
      MultilineIsSingleLine(value, maxLength);
      r
  }

  /** Safe text has no line feed, since a line feed is a control character. */
  lemma SafeTextHasNoLineFeed(s: string)
    requires IsSafeText(s)
    ensures '\n' !in s
  {
  }

  /** Splitting, cleaning and joining a text without line feeds is cleaning it as one line. */
  lemma LinesOfOneLine(s: string)
    requires '\n' !in s
    ensures JoinLines(CleanLines(SplitLines(s))) == CleanLine(s)
  {
    var pieces: seq<string> := [s];
    assert SplitLines(s) == pieces;
    assert pieces[1..] == [];
  }

  /** Because line feeds are control characters, the multi-line sanitiser never keeps a line break. */
  lemma MultilineIsSingleLine(value: JsValue, maxLength: JsValue)
    requires value.Str?
    ensures var stripped := StripDangerousSequences(value.s);
            TruncateTo(JoinLines(CleanLines(SplitLines(stripped))), maxLength)
            == SanitizeSingleLineText(value, maxLength)
  {
    var stripped := StripDangerousSequences(value.s);
    SafeTextHasNoLineFeed(stripped);
    LinesOfOneLine(stripped);
  }

  /** For every input and every option, the multi-line sanitiser agrees with the single-line one. */
  lemma MultilineEqualsSingleLine(value: JsValue, maxLength: JsValue)
    ensures SanitizeMultilineText(value, maxLength) == SanitizeSingleLineText(value, maxLength)
  {
    if value.Str? {
      MultilineIsSingleLine(value, maxLength);
    }
  }

  /** What the WHATWG URL parser reports for `new URL(input, 'https://placeholder.local')`. */
  datatype UrlParse = ParseFailure | Parsed(origin: string, protocol: string, href: string)

  const PlaceholderOrigin := "https://placeholder.local"

  /** `/^(?:javascript|data|vbscript|file):/i` */
  predicate HasBlockedScheme(s: string) {
    || StartsWithIgnoreCase(s, "javascript:")
    || StartsWithIgnoreCase(s, "data:")
    || StartsWithIgnoreCase(s, "vbscript:")
    || StartsWithIgnoreCase(s, "file:")
  }

  /** `[\w\-./]` */
  predicate IsPathChar(c: char) {
    IsWordChar(c) || c == '-' || c == '.' || c == '/'
  }

  /** `^[\w\-./]+$` */
  predicate IsPathBody(s: string) {
    |s| > 0 && forall i :: 0 <= i < |s| ==> IsPathChar(s[i])
  }

  /** `/^(?:\.{0,2}\/)?[\w\-./]+$/` as written: an optional `/`, `./` or `../`, then a non-empty body. */
  predicate IsSimpleRelativeUrl(s: string) {
    || IsPathBody(s)
    || ("/" <= s && IsPathBody(s[1..]))
    || ("./" <= s && IsPathBody(s[2..]))
    || ("../" <= s && IsPathBody(s[3..]))
  }

  /** The optional prefix of the simple-relative pattern is itself made of path characters. */
  lemma SimpleRelativeUrlIsPathBody(s: string)
    ensures IsSimpleRelativeUrl(s) <==> IsPathBody(s)
  {
    if IsSimpleRelativeUrl(s) && !IsPathBody(s) {
      var k := if "/" <= s && IsPathBody(s[1..]) then 1
               else if "./" <= s && IsPathBody(s[2..]) then 2
               else 3;
      forall i | 0 <= i < |s| ensures IsPathChar(s[i]) {
        if i >= k {
          assert s[i] == s[k..][i - k];
        }
      }
    }
  }

  /** Rejected before parsing: blank, a blocked scheme, or protocol-relative. */
  predicate IsRejectedOutright(trimmed: string) {
    trimmed == "" || HasBlockedScheme(trimmed) || "//" <= trimmed
  }

  /** The input is a relative reference: it resolved against the placeholder base, or did not parse at all. */
  predicate ResolvesRelative(p: UrlParse) {
    p.ParseFailure? || p.origin == PlaceholderOrigin
  }

  /** The input is an absolute `http:` or `https:` URL. */
  predicate IsWebUrl(p: UrlParse) {
    p.Parsed? && p.origin != PlaceholderOrigin && (p.protocol == "http:" || p.protocol == "https:")
  }

  /** `sanitizeUrl(value)`, with the URL parser passed in as `parse`. */
  function SanitizeUrl(value: JsValue, parse: string -> UrlParse): (r: string)
    ensures !value.Str? ==> r == ""
    ensures value.Str? && IsRejectedOutright(Trim(value.s)) ==> r == ""
    ensures r != "" ==> value.Str? && !IsRejectedOutright(Trim(value.s))
    ensures r != "" ==>
              || (r == Trim(value.s) && IsPathBody(r) && ResolvesRelative(parse(r)))
              || (IsWebUrl(parse(Trim(value.s))) && r == parse(Trim(value.s)).href)
    ensures value.Str? && !IsRejectedOutright(Trim(value.s)) ==>
              var t := Trim(value.s);
              && (ResolvesRelative(parse(t)) && IsPathBody(t) ==> r == t)
              && (ResolvesRelative(parse(t)) && !IsPathBody(t) ==> r == "")
              && (IsWebUrl(parse(t)) ==> r == parse(t).href)
              && (!ResolvesRelative(parse(t)) && !IsWebUrl(parse(t)) ==> r == "")
  {
    if !value.Str? then ""
    else
      var trimmed := Trim(value.s);
      SimpleRelativeUrlIsPathBody(trimmed);
      if IsRejectedOutright(trimmed) then ""
      else
        match parse(trimmed)
        case ParseFailure => if IsSimpleRelativeUrl(trimmed) then trimmed else ""
        case Parsed(origin, protocol, href) =>
          if origin == PlaceholderOrigin then
            if IsSimpleRelativeUrl(trimmed) then trimmed else ""
          else if protocol == "http:" || protocol == "https:" then href
          else ""
  }

  /**
   * Whatever the input, a sanitised URL never starts with a blocked scheme and
   * is never protocol-relative, provided the parser's `href` begins with the
   * protocol it reports.
   */
  lemma SanitizedUrlIsNeverDangerous(value: JsValue, parse: string -> UrlParse)
    requires value.Str? && parse(Trim(value.s)).Parsed? ==> parse(Trim(value.s)).protocol <= parse(Trim(value.s)).href
    ensures !HasBlockedScheme(SanitizeUrl(value, parse))
    ensures !("//" <= SanitizeUrl(value, parse))
  {
    var r := SanitizeUrl(value, parse);
    if r != "" {
      var t := Trim(value.s);
      if r == t && IsPathBody(r) {
        assert !IsPathChar(':');
      } else {
        assert IsWebUrl(parse(t)) && r == parse(t).href;
        assert ToLowerAscii(r[0]) == 'h';
      }
    }
  }

  /** The line terminators `/\r?\n/` splits on. */
  predicate IsLineBreak(c: char) {
    c == '\n' || c == '\r'
  }

  predicate IsNotControlOrLineBreak(c: char) {
    !IsControl(c) || IsLineBreak(c)
  }

  /**
   * The corrected first step of the multi-line sanitiser: control characters
   * other than line breaks, script tags and angle brackets are removed, and
   * the line breaks are left for the split that follows.
   */
  function StripDangerousKeepingLineBreaks(s: string): (r: string)
    ensures forall i :: 0 <= i < |r| ==> !IsAngle(r[i]) && (IsControl(r[i]) ==> IsLineBreak(r[i]))
  {
    var kept := Filter(s, IsNotControlOrLineBreak);
    var r := Filter(StripScriptTags(kept), IsNotAngle);
    assert forall i :: 0 <= i < |r| ==> r[i] in kept;
    r
  }

  /**
   * Multi-line text made of clean, non-blank lines joined by line feeds: the
   * only control character is the line feed, whitespace runs are single, and
   * the text neither starts nor ends with whitespace.
   */
  predicate IsCleanMultiline(s: string) {
    && IsTrimmed(s)
    && NoAdjacentSpaces(s)
    && forall i :: 0 <= i < |s| ==>
         && !IsAngle(s[i])
         && (IsControl(s[i]) ==> s[i] == '\n')
         && (IsSpace(s[i]) ==> s[i] == ' ' || s[i] == '\n')
  }

  /** Joining a clean line to clean multi-line text with a line feed gives clean multi-line text. */
  lemma JoinTwoCleanParts(a: string, b: string)
    requires a != "" && IsCleanLine(a)
    requires b != "" && IsCleanMultiline(b)
    ensures IsCleanMultiline(a + "\n" + b)
  {
    var r := a + "\n" + b;
    forall i | 0 <= i < |r| - 1 ensures !IsSpace(r[i]) || !IsSpace(r[i + 1]) {
      if i < |a| - 1 {
        assert r[i] == a[i] && r[i + 1] == a[i + 1];
      } else if i == |a| - 1 {
        assert r[i] == a[|a| - 1];
      } else if i == |a| {
        assert r[i + 1] == b[0];
      } else {
        assert r[i] == b[i - |a| - 1] && r[i + 1] == b[i - |a|];
      }
    }
    forall i | 0 <= i < |r|
      ensures !IsAngle(r[i]) && (IsControl(r[i]) ==> r[i] == '\n') && (IsSpace(r[i]) ==> r[i] == ' ' || r[i] == '\n')
    {
      if i < |a| {
        assert r[i] == a[i];
      } else if i > |a| {
        assert r[i] == b[i - |a| - 1];
      }
    }
  }

  /** Joined lines start with the first character of the first line. */
  lemma JoinLinesFirstChar(lines: seq<string>)
    requires |lines| > 0 && lines[0] != ""
    ensures JoinLines(lines) != "" && JoinLines(lines)[0] == lines[0][0]
  {
  }

  /** Clean, non-blank lines join into clean multi-line text. */
  lemma {:induction false} JoinCleanLines(lines: seq<string>)
    requires forall i :: 0 <= i < |lines| ==> lines[i] != "" && IsCleanLine(lines[i])
    ensures IsCleanMultiline(JoinLines(lines))
  {
    if |lines| == 1 {
      assert JoinLines(lines) == lines[0];
    } else if |lines| > 1 {
      JoinCleanLines(lines[1..]);
      JoinLinesFirstChar(lines[1..]);
      JoinTwoCleanParts(lines[0], JoinLines(lines[1..]));
    }
  }

  /** Cleaning lines that hold no angle bracket, and no control character that is not whitespace, yields clean, non-blank lines. */
  lemma {:induction false} CleanLinesAreClean(lines: seq<string>)
    requires forall i :: 0 <= i < |lines| ==> HasOnlySpaceControls(lines[i])
    ensures forall i :: 0 <= i < |CleanLines(lines)| ==> IsCleanLine(CleanLines(lines)[i])
  {
    if lines != [] {
      CleanLinesAreClean(lines[1..]);
      CleanLineIsClean(lines[0]);
    }
  }

  /** The untruncated result of the corrected multi-line sanitiser is clean multi-line text. */
  lemma KeptLinesAreClean(s: string)
    ensures IsCleanMultiline(JoinLines(CleanLines(SplitLines(StripDangerousKeepingLineBreaks(s)))))
  {
    var stripped := StripDangerousKeepingLineBreaks(s);
    var lines := SplitLines(stripped);
    forall i | 0 <= i < |lines| ensures HasOnlySpaceControls(lines[i]) {
      forall k | 0 <= k < |lines[i]|
        ensures !IsAngle(lines[i][k]) && (IsControl(lines[i][k]) ==> IsSpace(lines[i][k]))
      {
        assert lines[i][k] in lines[i];
        assert lines[i][k] in stripped;
      }
    }
    CleanLinesAreClean(lines);
    JoinCleanLines(CleanLines(lines));
  }

  /**
   * The multi-line sanitiser as its line handling intends: the line breaks
   * reach the split, so each non-blank line is cleaned on its own and the
   * lines are joined with line feeds.
   */
  function SanitizeMultilineTextKeepingLines(value: JsValue, maxLength: JsValue): (r: string)
    ensures !value.Str? ==> r == ""
    ensures forall i :: 0 <= i < |r| ==> !IsAngle(r[i]) && (IsControl(r[i]) ==> r[i] == '\n')
    ensures IsLengthLimit(maxLength) ==> |r| as real <= maxLength.n
    ensures !IsLengthLimit(maxLength) ==> IsCleanMultiline(r)
  {
    if !value.Str? then ""
    else
      var joined := JoinLines(CleanLines(SplitLines(StripDangerousKeepingLineBreaks(value.s))));
      KeptLinesAreClean(value.s);
      var r := TruncateTo(joined, maxLength);
      assert forall i :: 0 <= i < |r| ==> r[i] == joined[i];
      r
  }

  /** Clean multi-line text has nothing for the corrected strip to remove. */
  lemma StripKeepsCleanMultiline(s: string)
    requires IsCleanMultiline(s)
    ensures StripDangerousKeepingLineBreaks(s) == s
  {
    assert forall i :: 0 <= i < |s| ==> IsNotControlOrLineBreak(s[i]);
    assert '<' !in s by {
      forall i | 0 <= i < |s| ensures s[i] != '<' {
        assert !IsAngle(s[i]);
      }
    }
    assert forall i :: 0 <= i < |s| ==> IsNotAngle(s[i]);
  }

  /** Non-empty clean lines pass through line cleaning unchanged. */
  lemma {:induction false} CleanLinesOfCleanLines(lines: seq<string>)
    requires forall i :: 0 <= i < |lines| ==> lines[i] != "" && IsCleanLine(lines[i])
    ensures CleanLines(lines) == lines
  {
    if lines != [] {
      assert lines == [lines[0]] + lines[1..];
      CleanOneLine(lines[0], lines[1..]);
      CleanLinesOfCleanLines(lines[1..]);
    }
  }

  /**
   * Without a length limit, the corrected sanitiser returns non-empty clean
   * lines joined by line feeds exactly as they are: every line break survives.
   */
  lemma KeepingLinesFixpoint(lines: seq<string>)
    requires forall i :: 0 <= i < |lines| ==> lines[i] != "" && IsCleanLine(lines[i])
    ensures SanitizeMultilineTextKeepingLines(Str(JoinLines(lines)), Undefined) == JoinLines(lines)
  {
    var s := JoinLines(lines);
    JoinCleanLines(lines);
    StripKeepsCleanMultiline(s);
    if lines == [] {
      assert SplitLines(s) == [""];
      assert CleanLine("") == "";
    } else {
      forall i | 0 <= i < |lines|
        ensures '\n' !in lines[i] && (lines[i] == [] || lines[i][|lines[i]| - 1] != '\r')
      {
        SafeTextHasNoLineFeed(lines[i]);
        assert !IsControl(lines[i][|lines[i]| - 1]);
      }
      SplitJoinedLines(lines);
      CleanLinesOfCleanLines(lines);
    }
  }

  /** Stripping `a`, line feed, `b` as written removes the line feed. */
  lemma StripFusesLines()
    ensures StripDangerousSequences("a\nb") == "ab"
  {
    var s := "a\nb";
    assert s[1..] == "\nb" && s[1..][1..] == "b" && "b"[1..] == [];
    assert Filter("b", IsNotControl) == "b";
    assert Filter("\nb", IsNotControl) == "b";
    assert Filter(s, IsNotControl) == "ab";
  }

  /** A word of lower-case ASCII letters is a clean line. */
  lemma LowercaseWordIsClean(s: string)
    requires forall i :: 0 <= i < |s| ==> 'a' <= s[i] <= 'z'
    ensures IsCleanLine(s)
  {
  }

  /** Cleaning `a`, line feed, `b` as one line gives `ab`. */
  lemma CleanedFusedLine()
    ensures CleanLine(StripDangerousSequences("a\nb")) == "ab"
  {
    StripFusesLines();
    LowercaseWordIsClean("ab");
    CleanLineFixpoint("ab");
  }

  /** A line break between two words: the sanitiser as written fuses them. */
  lemma MultilineFusesLines()
    ensures SanitizeMultilineText(Str("a\nb"), Undefined) == "ab"
  {
    MultilineEqualsSingleLine(Str("a\nb"), Undefined);
    CleanedFusedLine();
  }

  /** The corrected strip keeps the line feed between `a` and `b`, and the split then yields both lines. */
  lemma KeepingLinesSplitsInTwo()
    ensures SplitLines(StripDangerousKeepingLineBreaks("a\nb")) == ["a", "b"]
  {
    var s := "a\nb";
    assert s[1..] == "\nb" && s[1..][1..] == "b" && "b"[1..] == [];
    assert Filter("b", IsNotControlOrLineBreak) == "b";
    assert Filter("\nb", IsNotControlOrLineBreak) == "\nb";
    assert Filter(s, IsNotControlOrLineBreak) == s;
    assert StripDangerousKeepingLineBreaks(s) == s;
    assert IndexOf(s, '\n') == 1;
    assert s[..1] == "a" && s[2..] == "b";
  }

  /** The corrected sanitiser cleans `a`, line feed, `b` into the lines `a` and `b`. */
  lemma KeepingLinesCleansBoth()
    ensures CleanLines(SplitLines(StripDangerousKeepingLineBreaks("a\nb"))) == ["a", "b"]
  {
    KeepingLinesSplitsInTwo();
    LowercaseWordIsClean("a");
    LowercaseWordIsClean("b");
    CleanLinesOfTwo("a", "b");
  }

  /** Two non-empty clean lines pass through line cleaning unchanged. */
  lemma CleanLinesOfTwo(x: string, y: string)
    requires IsCleanLine(x) && IsCleanLine(y) && x != "" && y != ""
    ensures CleanLines([x, y]) == [x, y]
  {
    CleanOneLine(y, []);
    CleanOneLine(x, [y]);
    var lines: seq<string> := [x, y];
    assert lines == [x] + [y];
  }

  /** A non-empty clean line in front is kept as it is. */
  lemma CleanOneLine(x: string, rest: seq<string>)
    requires IsCleanLine(x) && x != ""
    ensures CleanLines([x] + rest) == [x] + CleanLines(rest)
  {
    CleanLineFixpoint(x);
    assert ([x] + rest)[1..] == rest;
  }

  /** The same input keeps its line break under the corrected sanitiser. */
  lemma MultilineKeepingLinesKeepsBreak()
    ensures SanitizeMultilineTextKeepingLines(Str("a\nb"), Undefined) == "a\nb"
  {
    KeepingLinesCleansBoth();
    JoinTwoLines();
    var joined := JoinLines(CleanLines(SplitLines(StripDangerousKeepingLineBreaks("a\nb"))));
    assert joined == "a\nb";
    assert TruncateTo(joined, Undefined) == joined;
  }

  /** Joining the lines `a` and `b`. */
  lemma JoinTwoLines()
    ensures JoinLines(["a", "b"]) == "a\nb"
  {
    var lines: seq<string> := ["a", "b"];
    assert lines[1..] == ["b"];
  }
}
