/** The text normaliser `_clean_text`: four rewrites applied in order.

      1. `\n\s*\n`      -> "\n\n"   (a run of blank lines becomes one blank line)
      2. ` +`           -> " "      (a run of spaces becomes one space)
      3. `[^\x00-\x7F]+` -> " "     (a run of non-ASCII characters becomes one space)
      4. `str.strip()`              (whitespace removed from both ends)

    Each rewrite is written as a left-to-right scan with the semantics of
    Python's `re.sub`: find the leftmost match, replace it, resume after it. */
module Normalizer {
  import opened Strings

  /** The largest index `j` in `[1, n)` with `s[j] == '\n'`, or 0 if there is none. */
  function LastNewlineBelow(s: string, n: nat): (j: nat)
    requires n <= |s|
    ensures j == 0 || (1 <= j < n && s[j] == '\n')
    ensures forall i :: j < i < n && 1 <= i ==> s[i] != '\n'
    decreases n
  {
    if n <= 1 then 0
    else if s[n - 1] == '\n' then n - 1
    else LastNewlineBelow(s, n - 1)
  }

  /** End of the match of `\n\s*\n` at the start of `s`, or 0 when it does not
      match there. The greedy `\s*` runs to the end of the whitespace run and
      backs off to the last newline inside it. */
  function BlankLineMatchEnd(s: string): (e: nat)
    ensures e == 0 || (2 <= e <= |s| && s[0] == '\n' && s[e - 1] == '\n' && AllSpace(s[..e]))
  {
    if s == [] || s[0] != '\n' then 0
    else
      var k := LastNewlineBelow(s, SpaceRun(s));
      if k == 0 then 0 else k + 1
  }

  /** Step 1: `re.sub(r'\n\s*\n', '\n\n', s)`. */
  function CollapseBlankLines(s: string): (r: string)
    ensures |r| <= |s|
    decreases |s|
  {
    if s == [] then []
    else if BlankLineMatchEnd(s) > 0 then "\n\n" + CollapseBlankLines(s[BlankLineMatchEnd(s)..])
    else [s[0]] + CollapseBlankLines(s[1..])
  }

  /** The leading whitespace run of `t` contains a newline. */
  predicate LeadNewline(t: string) {
    t != [] && IsSpace(t[0]) && (t[0] == '\n' || LeadNewline(t[1..]))
  }

  /** No whitespace run of `r` holds more than two newlines, and two newlines
      in one run are adjacent: every blank-line run is a single blank line. */
  predicate BlankLinesCollapsed(r: string) {
    forall i :: 0 <= i < |r| && r[i] == '\n' && LeadNewline(r[i + 1..]) ==>
      i + 1 < |r| && r[i + 1] == '\n' && !LeadNewline(r[i + 2..])
  }

  /** A whitespace run `s[p..n)` that is followed by a non-space (or the end)
      and holds no newline gives no leading newline. */
  lemma {:induction false} NoLeadNewline(s: string, p: nat, n: nat)
    requires p <= n <= |s|
    requires forall i :: p <= i < n ==> IsSpace(s[i]) && s[i] != '\n'
    requires n < |s| ==> !IsSpace(s[n])
    ensures !LeadNewline(s[p..])
    decreases n - p
  {
    if p < n {
      assert s[p..][1..] == s[p + 1..];
      NoLeadNewline(s, p + 1, n);
    }
  }

  /** A newline inside the whitespace run starting at `p` is a leading newline. */
  lemma {:induction false} LeadNewlineAt(s: string, p: nat, m: nat)
    requires p <= m < |s| && s[m] == '\n'
    requires forall i :: p <= i < m ==> IsSpace(s[i])
    ensures LeadNewline(s[p..])
    decreases m - p
  {
    if p < m {
      assert s[p..][1..] == s[p + 1..];
      LeadNewlineAt(s, p + 1, m);
    }
  }

  /** What follows a match (or an unmatched newline) has no leading newline. */
  lemma AfterNewlineNoLead(s: string)
    requires s != [] && s[0] == '\n'
    ensures BlankLineMatchEnd(s) > 0 ==> !LeadNewline(s[BlankLineMatchEnd(s)..])
    ensures BlankLineMatchEnd(s) == 0 ==> !LeadNewline(s[1..])
  {
    var n := SpaceRun(s);
    var k := LastNewlineBelow(s, n);
    NoLeadNewline(s, k + 1, n);
  }

  /** Step 1 never creates a leading newline. */
  lemma {:induction false} CollapseKeepsNoLead(t: string)
    requires !LeadNewline(t)
    ensures !LeadNewline(CollapseBlankLines(t))
    decreases |t|
  {
    if t != [] {
      assert t[0] != '\n';
      assert BlankLineMatchEnd(t) == 0;
      var r := CollapseBlankLines(t);
      assert r == [t[0]] + CollapseBlankLines(t[1..]);
      if IsSpace(t[0]) {
        CollapseKeepsNoLead(t[1..]);
        assert r[1..] == CollapseBlankLines(t[1..]);
      }
    }
  }

  lemma CollapsedPrependOne(c: char, x: string)
    requires BlankLinesCollapsed(x)
    requires c == '\n' ==> !LeadNewline(x)
    ensures BlankLinesCollapsed([c] + x)
  {
    var r := [c] + x;
    forall i | 0 <= i < |r| && r[i] == '\n' && LeadNewline(r[i + 1..])
      ensures i + 1 < |r| && r[i + 1] == '\n' && !LeadNewline(r[i + 2..])
    {
      if i > 0 {
        assert r[i] == x[i - 1];
        assert r[i + 1..] == x[i..];
        if i + 1 < |r| {
          assert r[i + 2..] == x[i + 1..];
        }
      }
    }
  }

  lemma CollapsedPrependTwo(x: string)
    requires BlankLinesCollapsed(x)
    requires !LeadNewline(x)
    ensures BlankLinesCollapsed("\n\n" + x)
  {
    var r := "\n\n" + x;
    forall i | 0 <= i < |r| && r[i] == '\n' && LeadNewline(r[i + 1..])
      ensures i + 1 < |r| && r[i + 1] == '\n' && !LeadNewline(r[i + 2..])
    {
      if i == 0 {
        assert r[2..] == x;
      } else if i >= 2 {
        assert r[i] == x[i - 2];
        assert r[i + 1..] == x[i - 1..];
        if i + 1 < |r| {
          assert r[i + 2..] == x[i..];
        }
      }
    }
  }

  /** Step 1 leaves every blank-line run as exactly one blank line. */
  lemma {:induction false} CollapseBlankLinesCollapses(s: string)
    ensures BlankLinesCollapsed(CollapseBlankLines(s))
    decreases |s|
  {
    if s != [] {
      var e := BlankLineMatchEnd(s);
      if e > 0 {
        AfterNewlineNoLead(s);
        CollapseBlankLinesCollapses(s[e..]);
        CollapseKeepsNoLead(s[e..]);
        CollapsedPrependTwo(CollapseBlankLines(s[e..]));
      } else {
        CollapseBlankLinesCollapses(s[1..]);
        if s[0] == '\n' {
          AfterNewlineNoLead(s);
          CollapseKeepsNoLead(s[1..]);
        }
        CollapsedPrependOne(s[0], CollapseBlankLines(s[1..]));
      }
    }
  }

  /** Step 1 only rewrites whitespace: the visible characters are unchanged. */
  lemma {:induction false} CollapseBlankLinesKeepsText(s: string)
    ensures Filter(CollapseBlankLines(s), NotSpace) == Filter(s, NotSpace)
    decreases |s|
  {
    if s != [] {
      var e := BlankLineMatchEnd(s);
      if e > 0 {
        CollapseBlankLinesKeepsText(s[e..]);
        assert s == s[..e] + s[e..];
        FilterConcat(s[..e], s[e..], NotSpace);
        FilterNone(s[..e], NotSpace);
        FilterConcat("\n\n", CollapseBlankLines(s[e..]), NotSpace);
        FilterNone("\n\n", NotSpace);
      } else {
        CollapseBlankLinesKeepsText(s[1..]);
        FilterConcat([s[0]], CollapseBlankLines(s[1..]), NotSpace);
      }
    }
  }

  lemma CollapsedSuffix(s: string)
    requires BlankLinesCollapsed(s) && s != []
    ensures BlankLinesCollapsed(s[1..])
  {
    var t := s[1..];
    forall i | 0 <= i < |t| && t[i] == '\n' && LeadNewline(t[i + 1..])
      ensures i + 1 < |t| && t[i + 1] == '\n' && !LeadNewline(t[i + 2..])
    {
      assert t[i + 1..] == s[i + 2..];
      assert s[i + 1] == '\n';
      if i + 2 < |s| {
        assert t[i + 2..] == s[i + 3..];
      }
    }
  }

  /** In collapsed text a match of `\n\s*\n` is exactly two newlines. */
  lemma CollapsedMatchIsTwo(s: string)
    requires BlankLinesCollapsed(s) && BlankLineMatchEnd(s) > 0
    ensures BlankLineMatchEnd(s) == 2
  {
    var n := SpaceRun(s);
    var k := LastNewlineBelow(s, n);
    LeadNewlineAt(s, 1, k);
    assert s[1] == '\n' && !LeadNewline(s[2..]);
    if k > 1 {
      LeadNewlineAt(s, 2, k);
    }
  }

  /** Text that already has single blank lines is left exactly as it is. */
  lemma {:induction false} CollapseBlankLinesFixpoint(s: string)
    requires BlankLinesCollapsed(s)
    ensures CollapseBlankLines(s) == s
    decreases |s|
  {
    if s != [] {
      CollapsedSuffix(s);
      if BlankLineMatchEnd(s) > 0 {
        CollapsedMatchIsTwo(s);
        CollapsedSuffix(s[1..]);
        assert s[1..][1..] == s[2..];
        CollapseBlankLinesFixpoint(s[2..]);
        assert CollapseBlankLines(s) == "\n\n" + CollapseBlankLines(s[2..]);
        assert s == "\n\n" + s[2..];
      } else {
        CollapseBlankLinesFixpoint(s[1..]);
        assert s == [s[0]] + s[1..];
      }
    }
  }

  /** Unlike the whole normaliser, step 1 on its own is idempotent. */
  lemma CollapseBlankLinesIdempotent(s: string)
    ensures CollapseBlankLines(CollapseBlankLines(s)) == CollapseBlankLines(s)
  {
    CollapseBlankLinesCollapses(s);
    CollapseBlankLinesFixpoint(CollapseBlankLines(s));
  }

  // ---------------------------------------------------------------------
  // Step 2: runs of spaces
  // ---------------------------------------------------------------------

  predicate IsBlank(c: char) {
    c == ' '
  }

  predicate NotBlank(c: char) {
    c != ' '
  }

  /** Number of leading `' '` characters. */
  function BlankRun(s: string): (n: nat)
    ensures n <= |s|
    ensures forall i :: 0 <= i < n ==> s[i] == ' '
    ensures n < |s| ==> s[n] != ' '
  {
    if s == [] || s[0] != ' ' then 0 else 1 + BlankRun(s[1..])
  }

  /** Step 2: `re.sub(r' +', ' ', s)`. */
  function CollapseSpaces(s: string): (r: string)
    ensures |r| <= |s|
    ensures s != [] ==> r != [] && r[0] == s[0]
    decreases |s|
  {
    if s == [] then []
    else if s[0] == ' ' then " " + CollapseSpaces(s[BlankRun(s)..])
    else [s[0]] + CollapseSpaces(s[1..])
  }

  predicate NoDoubleSpace(r: string) {
    forall i :: 0 <= i < |r| - 1 ==> !(r[i] == ' ' && r[i + 1] == ' ')
  }

  /** After step 2 no two spaces are adjacent. */
  lemma {:induction false} CollapseSpacesNoDouble(s: string)
    ensures NoDoubleSpace(CollapseSpaces(s))
    decreases |s|
  {
    if s != [] {
      var r := CollapseSpaces(s);
      var rest := if s[0] == ' ' then s[BlankRun(s)..] else s[1..];
      CollapseSpacesNoDouble(rest);
      assert r[1..] == CollapseSpaces(rest);
      forall i | 0 <= i < |r| - 1
        ensures !(r[i] == ' ' && r[i + 1] == ' ')
      {
        if i > 0 {
          assert r[i] == r[1..][i - 1] && r[i + 1] == r[1..][i];
        }
      }
    }
  }

  /** Step 2 deletes spaces only. */
  lemma {:induction false} CollapseSpacesKeepsText(s: string)
    ensures Filter(CollapseSpaces(s), NotBlank) == Filter(s, NotBlank)
    decreases |s|
  {
    if s != [] {
      if s[0] == ' ' {
        var n := BlankRun(s);
        CollapseSpacesKeepsText(s[n..]);
        assert s == s[..n] + s[n..];
        FilterConcat(s[..n], s[n..], NotBlank);
        FilterNone(s[..n], NotBlank);
        FilterConcat(" ", CollapseSpaces(s[n..]), NotBlank);
      } else {
        CollapseSpacesKeepsText(s[1..]);
        FilterConcat([s[0]], CollapseSpaces(s[1..]), NotBlank);
      }
    }
  }

  /** A run of spaces becomes exactly one space. */
  lemma CollapseSpacesRun(s: string)
    requires s != [] && forall i :: 0 <= i < |s| ==> s[i] == ' '
    ensures CollapseSpaces(s) == " "
  {
    assert BlankRun(s) == |s|;
  }

  /** Step 2 works run by run: it distributes over a cut that does not split a run of spaces. */
  lemma {:induction false} CollapseSpacesConcat(a: string, b: string)
    requires a == [] || b == [] || a[|a| - 1] != ' ' || b[0] != ' '
    ensures CollapseSpaces(a + b) == CollapseSpaces(a) + CollapseSpaces(b)
    decreases |a|
  {
    if a == [] {
      assert a + b == b;
    } else if a[0] == ' ' {
      CollapseSpacesConcatBlank(a, b);
    } else {
      var ab := a + b;
      assert ab[0] == a[0] && ab[1..] == a[1..] + b;
      CollapseSpacesConcat(a[1..], b);
      calc {
        CollapseSpaces(ab);
        [a[0]] + CollapseSpaces(a[1..] + b);
        [a[0]] + (CollapseSpaces(a[1..]) + CollapseSpaces(b));
      }
    }
  }

  lemma {:induction false} CollapseSpacesConcatBlank(a: string, b: string)
    requires a != [] && a[0] == ' '
    requires b == [] || a[|a| - 1] != ' ' || b[0] != ' '
    ensures CollapseSpaces(a + b) == CollapseSpaces(a) + CollapseSpaces(b)
    decreases |a|, 0
  {
    var n := BlankRun(a);
    if n == |a| {
      AllBlankConcat(a, b);
    } else {
      var ab := a + b;
      var rest := a[n..];
      calc {
        CollapseSpaces(ab);
        { BlankRunConcat(a, b); assert ab[0] == ' '; }
        " " + CollapseSpaces(ab[n..]);
        { assert ab[n..] == rest + b; }
        " " + CollapseSpaces(rest + b);
        { assert rest[|rest| - 1] == a[|a| - 1]; CollapseSpacesConcat(rest, b); }
        " " + (CollapseSpaces(rest) + CollapseSpaces(b));
        CollapseSpaces(a) + CollapseSpaces(b);
      }
    }
  }

  /** A run of spaces followed by a non-space collapses to one space. */
  lemma AllBlankConcat(a: string, b: string)
    requires a != [] && BlankRun(a) == |a|
    requires b == [] || b[0] != ' '
    ensures CollapseSpaces(a + b) == CollapseSpaces(a) + CollapseSpaces(b)
  {
    var ab := a + b;
    BlankRunConcat(a, b);
    assert a[0] == ' ' && ab[0] == ' ';
    assert ab[|a|..] == b;
    assert a[|a|..] == [];
    assert CollapseSpaces(a) == " ";
  }

  lemma {:induction false} BlankRunConcat(a: string, b: string)
    requires a != []
    requires BlankRun(a) == |a| ==> b == [] || b[0] != ' '
    ensures BlankRun(a + b) == BlankRun(a)
    decreases |a|
  {
    if a[0] == ' ' {
      assert (a + b)[1..] == a[1..] + b;
      if |a| == 1 {
        assert a[1..] + b == b;
      } else {
        BlankRunConcat(a[1..], b);
      }
    }
  }

  /** Text without two adjacent spaces is left exactly as it is. */
  lemma {:induction false} CollapseSpacesFixpoint(s: string)
    requires NoDoubleSpace(s)
    ensures CollapseSpaces(s) == s
    decreases |s|
  {
    if s != [] {
      assert NoDoubleSpace(s[1..]) by {
        forall i | 0 <= i < |s[1..]| - 1
          ensures !(s[1..][i] == ' ' && s[1..][i + 1] == ' ')
        {
          assert s[1..][i] == s[i + 1] && s[1..][i + 1] == s[i + 2];
        }
      }
      if s[0] == ' ' {
        assert |s| == 1 || s[1] != ' ';
        assert BlankRun(s) == 1;
      }
      CollapseSpacesFixpoint(s[1..]);
      assert s == [s[0]] + s[1..];
    }
  }

  // ---------------------------------------------------------------------
  // Step 3: runs of non-ASCII characters
  // ---------------------------------------------------------------------

  /** Number of leading non-ASCII characters. */
  function NonAsciiRun(s: string): (n: nat)
    ensures n <= |s|
    ensures forall i :: 0 <= i < n ==> !IsAscii(s[i])
    ensures n < |s| ==> IsAscii(s[n])
  {
    if s == [] || IsAscii(s[0]) then 0 else 1 + NonAsciiRun(s[1..])
  }

  /** Step 3: `re.sub(r'[^\x00-\x7F]+', ' ', s)`. */
  function ReplaceNonAscii(s: string): (r: string)
    ensures |r| <= |s|
    ensures AllAscii(r)
    decreases |s|
  {
    if s == [] then []
    else if !IsAscii(s[0]) then " " + ReplaceNonAscii(s[NonAsciiRun(s)..])
    else [s[0]] + ReplaceNonAscii(s[1..])
  }

  /** Step 3 keeps every visible ASCII character, in order. */
  lemma {:induction false} ReplaceNonAsciiKeepsText(s: string)
    ensures Filter(ReplaceNonAscii(s), IsAsciiNonSpace) == Filter(s, IsAsciiNonSpace)
    decreases |s|
  {
    if s != [] {
      if !IsAscii(s[0]) {
        var n := NonAsciiRun(s);
        ReplaceNonAsciiKeepsText(s[n..]);
        assert s == s[..n] + s[n..];
        FilterConcat(s[..n], s[n..], IsAsciiNonSpace);
        FilterNone(s[..n], IsAsciiNonSpace);
        FilterConcat(" ", ReplaceNonAscii(s[n..]), IsAsciiNonSpace);
      } else {
        ReplaceNonAsciiKeepsText(s[1..]);
        FilterConcat([s[0]], ReplaceNonAscii(s[1..]), IsAsciiNonSpace);
      }
    }
  }

  /** A run of non-ASCII characters becomes exactly one space. */
  lemma ReplaceNonAsciiRun(s: string)
    requires s != [] && forall i :: 0 <= i < |s| ==> !IsAscii(s[i])
    ensures ReplaceNonAscii(s) == " "
  {
    assert NonAsciiRun(s) == |s|;
  }

  /** ASCII text is left exactly as it is. */
  lemma {:induction false} ReplaceNonAsciiFixpoint(s: string)
    requires AllAscii(s)
    ensures ReplaceNonAscii(s) == s
    decreases |s|
  {
    if s != [] {
      ReplaceNonAsciiFixpoint(s[1..]);
      assert s == [s[0]] + s[1..];
    }
  }

  lemma {:induction false} NonAsciiRunConcat(a: string, b: string)
    requires a != []
    requires NonAsciiRun(a) == |a| ==> b == [] || IsAscii(b[0])
    ensures NonAsciiRun(a + b) == NonAsciiRun(a)
    decreases |a|
  {
    if !IsAscii(a[0]) {
      assert (a + b)[1..] == a[1..] + b;
      if |a| == 1 {
        assert a[1..] + b == b;
      } else {
        NonAsciiRunConcat(a[1..], b);
      }
    }
  }

  /** Step 3 works run by run: it distributes over a cut that does not split a non-ASCII run. */
  lemma {:induction false} ReplaceNonAsciiConcat(a: string, b: string)
    requires a == [] || b == [] || IsAscii(a[|a| - 1]) || IsAscii(b[0])
    ensures ReplaceNonAscii(a + b) == ReplaceNonAscii(a) + ReplaceNonAscii(b)
    decreases |a|
  {
    if a == [] {
      assert a + b == b;
    } else if !IsAscii(a[0]) {
      ReplaceNonAsciiConcatRun(a, b);
    } else {
      var ab := a + b;
      assert ab[0] == a[0] && ab[1..] == a[1..] + b;
      ReplaceNonAsciiConcat(a[1..], b);
      calc {
        ReplaceNonAscii(ab);
        [a[0]] + ReplaceNonAscii(a[1..] + b);
        [a[0]] + (ReplaceNonAscii(a[1..]) + ReplaceNonAscii(b));
      }
    }
  }

  lemma {:induction false} ReplaceNonAsciiConcatRun(a: string, b: string)
    requires a != [] && !IsAscii(a[0])
    requires b == [] || IsAscii(a[|a| - 1]) || IsAscii(b[0])
    ensures ReplaceNonAscii(a + b) == ReplaceNonAscii(a) + ReplaceNonAscii(b)
    decreases |a|, 0
  {
    var n := NonAsciiRun(a);
    if n == |a| {
      AllNonAsciiConcat(a, b);
    } else {
      var ab := a + b;
      var rest := a[n..];
      calc {
        ReplaceNonAscii(ab);
        { NonAsciiRunConcat(a, b); assert !IsAscii(ab[0]); }
        " " + ReplaceNonAscii(ab[n..]);
        { assert ab[n..] == rest + b; }
        " " + ReplaceNonAscii(rest + b);
        { assert rest[|rest| - 1] == a[|a| - 1]; ReplaceNonAsciiConcat(rest, b); }
        " " + (ReplaceNonAscii(rest) + ReplaceNonAscii(b));
        ReplaceNonAscii(a) + ReplaceNonAscii(b);
      }
    }
  }

  /** A run of non-ASCII characters followed by ASCII becomes one space. */
  lemma AllNonAsciiConcat(a: string, b: string)
    requires a != [] && NonAsciiRun(a) == |a|
    requires b == [] || IsAscii(b[0])
    ensures ReplaceNonAscii(a + b) == ReplaceNonAscii(a) + ReplaceNonAscii(b)
  {
    var ab := a + b;
    NonAsciiRunConcat(a, b);
    assert !IsAscii(a[0]) && !IsAscii(ab[0]);
    assert ab[|a|..] == b;
    assert a[|a|..] == [];
    assert ReplaceNonAscii(a) == " ";
  }

  // ---------------------------------------------------------------------
  // Step 4: strip
  // ---------------------------------------------------------------------

  /** Number of trailing whitespace characters. */
  function TrailSpaceRun(s: string): (n: nat)
    ensures n <= |s|
    ensures forall i :: |s| - n <= i < |s| ==> IsSpace(s[i])
    ensures n < |s| ==> !IsSpace(s[|s| - n - 1])
  {
    if s == [] || !IsSpace(s[|s| - 1]) then 0 else 1 + TrailSpaceRun(s[..|s| - 1])
  }

  /** The slice `str.strip()` keeps: `s[lo..hi]`. */
  function StripBounds(s: string): (b: (nat, nat))
    ensures b.0 <= b.1 <= |s|
    ensures AllSpace(s[..b.0]) && AllSpace(s[b.1..])
    ensures b.0 == b.1 || (!IsSpace(s[b.0]) && !IsSpace(s[b.1 - 1]))
  {
    var lo := SpaceRun(s);
    if lo == |s| then (lo, lo) else (lo, |s| - TrailSpaceRun(s))
  }

  /** Step 4: `s.strip()`. */
  function Strip(s: string): (r: string)
    ensures |r| <= |s|
    ensures r == [] || (!IsSpace(r[0]) && !IsSpace(r[|r| - 1]))
  {
    var b := StripBounds(s);
    s[b.0..b.1]
  }

  /** Step 4 drops whitespace only. */
  lemma StripKeepsText(s: string)
    ensures Filter(Strip(s), NotSpace) == Filter(s, NotSpace)
  {
    var b := StripBounds(s);
    assert s == s[..b.0] + s[b.0..b.1] + s[b.1..];
    FilterConcat(s[..b.0] + s[b.0..b.1], s[b.1..], NotSpace);
    FilterConcat(s[..b.0], s[b.0..b.1], NotSpace);
    FilterNone(s[..b.0], NotSpace);
    FilterNone(s[b.1..], NotSpace);
  }

  // ---------------------------------------------------------------------
  // The normaliser
  // ---------------------------------------------------------------------

  /** `_clean_text(text)`. */
  function CleanText(text: string): (r: string)
    ensures text == [] ==> r == []
    ensures AllAscii(r)
    ensures r == [] || (!IsSpace(r[0]) && !IsSpace(r[|r| - 1]))
    ensures |r| <= |text|
  {
    if text == [] then ""
    else Strip(ReplaceNonAscii(CollapseSpaces(CollapseBlankLines(text))))
  }

  /** A filter for `k1` after one for `k2` is just `k1` when `k1` implies `k2`. */
  lemma {:induction false} FilterNarrows(s: string, k1: char -> bool, k2: char -> bool)
    requires forall c :: k1(c) ==> k2(c)
    ensures Filter(Filter(s, k2), k1) == Filter(s, k1)
  {
    if s != [] {
      FilterNarrows(s[1..], k1, k2);
      FilterConcat(if k2(s[0]) then [s[0]] else [], Filter(s[1..], k2), k1);
    }
  }

  /** The visible characters of the output are exactly the visible ASCII
      characters of the input, in their original order: the normaliser only
      rewrites whitespace and drops non-ASCII characters. */
  lemma CleanTextKeepsVisibleAscii(text: string)
    ensures Filter(CleanText(text), NotSpace) == Filter(text, IsAsciiNonSpace)
  {
    if text != [] {
      var s2 := CollapseSpaces(CollapseBlankLines(text));
      assert CleanText(text) == Strip(ReplaceNonAscii(s2));
      WhitespaceStepsKeepText(text);
      AsciiStepsKeepText(s2);
    }
  }

  /** Steps 1 and 2 only rewrite whitespace. */
  lemma WhitespaceStepsKeepText(text: string)
    ensures Filter(CollapseSpaces(CollapseBlankLines(text)), IsAsciiNonSpace) == Filter(text, IsAsciiNonSpace)
  {
    var s1 := CollapseBlankLines(text);
    var s2 := CollapseSpaces(s1);
    calc {
      Filter(s2, IsAsciiNonSpace);
      { FilterNarrows(s2, IsAsciiNonSpace, NotBlank); }
      Filter(Filter(s2, NotBlank), IsAsciiNonSpace);
      { CollapseSpacesKeepsText(s1); }
      Filter(Filter(s1, NotBlank), IsAsciiNonSpace);
      { FilterNarrows(s1, IsAsciiNonSpace, NotBlank); FilterNarrows(s1, IsAsciiNonSpace, NotSpace); }
      Filter(Filter(s1, NotSpace), IsAsciiNonSpace);
      { CollapseBlankLinesKeepsText(text); }
      Filter(Filter(text, NotSpace), IsAsciiNonSpace);
      { FilterNarrows(text, IsAsciiNonSpace, NotSpace); }
      Filter(text, IsAsciiNonSpace);
    }
  }

  /** Steps 3 and 4 drop non-ASCII characters and outer whitespace only, and
      leave ASCII text behind. */
  lemma AsciiStepsKeepText(s2: string)
    ensures Filter(Strip(ReplaceNonAscii(s2)), NotSpace) == Filter(s2, IsAsciiNonSpace)
  {
    var s3 := ReplaceNonAscii(s2);
    var s4 := Strip(s3);
    calc {
      Filter(s4, NotSpace);
      { AsciiFilters(s4); }
      Filter(s4, IsAsciiNonSpace);
      { FilterNarrows(s4, IsAsciiNonSpace, NotSpace); }
      Filter(Filter(s4, NotSpace), IsAsciiNonSpace);
      { StripKeepsText(s3); }
      Filter(Filter(s3, NotSpace), IsAsciiNonSpace);
      { FilterNarrows(s3, IsAsciiNonSpace, NotSpace); }
      Filter(s3, IsAsciiNonSpace);
      { ReplaceNonAsciiKeepsText(s2); }
      Filter(s2, IsAsciiNonSpace);
    }
  }

  /** On ASCII text, dropping whitespace and keeping visible ASCII agree. */
  lemma {:induction false} AsciiFilters(s: string)
    requires AllAscii(s)
    ensures Filter(s, NotSpace) == Filter(s, IsAsciiNonSpace)
  {
    if s != [] {
      AsciiFilters(s[1..]);
    }
  }

  /** The normaliser is not idempotent: replacing a non-ASCII character can
      put spaces next to each other after the space-collapsing step has run,
      and a second pass collapses them. */
  lemma CleanTextNotIdempotent()
    ensures CleanText("a \U{e9} b") == "a   b"
    ensures CleanText("a   b") == "a b"
  {
    assert "a \U{e9} b" == ['a', ' ', '\U{e9}', ' ', 'b'];
    assert "a   b" == ['a', ' ', ' ', ' ', 'b'];
    assert "a b" == ['a', ' ', 'b'];
    NonAsciiBetweenSpaces('a', '\U{e9}', 'b');
    SpacesBetween('a', 'b');
  }

  /** A non-ASCII character between two spaces leaves three spaces behind. */
  lemma NonAsciiBetweenSpaces(c: char, e: char, d: char)
    requires IsAsciiNonSpace(c) && IsAsciiNonSpace(d) && !IsAscii(e)
    ensures CleanText([c, ' ', e, ' ', d]) == [c, ' ', ' ', ' ', d]
  {
    var t := [c, ' ', e, ' ', d];
    var u := [c, ' ', ' ', ' ', d];
    assert CleanText(t) == Strip(ReplaceNonAscii(CollapseSpaces(CollapseBlankLines(t))));
    NoNewlineCollapsed(t);
    assert NoDoubleSpace(t);
    CollapseSpacesFixpoint(t);
    ReplaceBetweenSpaces(c, e, d);
    StripTrimmed(u);
  }

  lemma ReplaceBetweenSpaces(c: char, e: char, d: char)
    requires IsAscii(c) && IsAscii(d) && !IsAscii(e)
    ensures ReplaceNonAscii([c, ' ', e, ' ', d]) == [c, ' ', ' ', ' ', d]
  {
    assert [c, ' ', e, ' ', d] == ([c, ' '] + [e]) + [' ', d];
    ReplaceNonAsciiConcat([c, ' '], [e]);
    ReplaceNonAsciiConcat([c, ' '] + [e], [' ', d]);
    ReplaceNonAsciiFixpoint([c, ' ']);
    ReplaceNonAsciiFixpoint([' ', d]);
    ReplaceNonAsciiRun([e]);
  }

  /** Three spaces between visible characters collapse to one. */
  lemma SpacesBetween(c: char, d: char)
    requires IsAsciiNonSpace(c) && IsAsciiNonSpace(d)
    ensures CleanText([c, ' ', ' ', ' ', d]) == [c, ' ', d]
  {
    var t := [c, ' ', ' ', ' ', d];
    var u := [c, ' ', d];
    assert CleanText(t) == Strip(ReplaceNonAscii(CollapseSpaces(CollapseBlankLines(t))));
    NoNewlineCollapsed(t);
    CollapseBetween(c, d);
    ReplaceNonAsciiFixpoint(u);
    StripTrimmed(u);
  }

  lemma CollapseBetween(c: char, d: char)
    requires c != ' ' && d != ' '
    ensures CollapseSpaces([c, ' ', ' ', ' ', d]) == [c, ' ', d]
  {
    assert [c, ' ', ' ', ' ', d] == ([c] + [' ', ' ', ' ']) + [d];
    CollapseSpacesConcat([c], [' ', ' ', ' ']);
    CollapseSpacesConcat([c] + [' ', ' ', ' '], [d]);
    CollapseSpacesFixpoint([c]);
    CollapseSpacesFixpoint([d]);
    CollapseSpacesRun([' ', ' ', ' ']);
  }

  lemma NoNewlineCollapsed(t: string)
    requires forall i :: 0 <= i < |t| ==> t[i] != '\n'
    ensures CollapseBlankLines(t) == t
  {
    CollapseBlankLinesFixpoint(t);
  }

  /** Text with no whitespace at either end is left as it is by step 4. */
  lemma StripTrimmed(s: string)
    requires s == [] || (!IsSpace(s[0]) && !IsSpace(s[|s| - 1]))
    ensures Strip(s) == s
  {
    if s != [] {
      assert SpaceRun(s) == 0;
      assert TrailSpaceRun(s) == 0;
    }
  }
}
