/** The metric extractor `_extract_financial_metrics`.

    Every pattern it uses has one shape,

        w1\s+w2...\s+wn [:\s]* \$? ([\d,]+\.?\d*) ...

    searched case-insensitively with `re.search`; whatever follows the
    capture group (an optional unit word) can always match the empty string,
    so it decides neither whether the pattern matches nor what group 1 holds,
    and is left out. The matcher below is written by hand for this shape:
    each greedy part takes the longest run it can, and backing off never
    helps because the character after each run cannot start the next part. */
module Metrics {
  import opened Strings

  /** A keyword: its lower-case words, separated in the text by `\s+`. */
  datatype Pattern = Pattern(words: seq<string>)

  const RevenuePattern := Pattern(["revenue"])
  const SalesPattern := Pattern(["sales"])
  const NetIncomePattern := Pattern(["net", "income"])
  const NetProfitPattern := Pattern(["net", "profit"])

  /** Tried in order; the first one that matches anywhere wins. */
  const RevenuePatterns := [RevenuePattern, SalesPattern]
  const ProfitPatterns := [NetIncomePattern, NetProfitPattern]

  datatype Metric = Revenue | NetIncome

  /** Absent metrics are absent keys. */
  type MetricSet = map<Metric, real>

  predicate IsDigitOrComma(c: char) {
    IsDigit(c) || c == ','
  }

  predicate IsColonOrSpace(c: char) {
    c == ':' || IsSpace(c)
  }

  /** Length of the longest prefix of `s` whose characters all satisfy `p`. */
  function RunOf(s: string, p: char -> bool): (n: nat)
    ensures n <= |s|
    ensures forall i :: 0 <= i < n ==> p(s[i])
    ensures n < |s| ==> !p(s[n])
  {
    if s == [] || !p(s[0]) then 0 else 1 + RunOf(s[1..], p)
  }

  /** `t` starts with the lower-case word `w`, ignoring ASCII case. */
  predicate StartsWithWord(t: string, w: string) {
    |w| <= |t| && Lower(t[..|w|]) == w
  }

  /** Length of the keyword match at the start of `t`, if the keyword matches there. */
  function MatchWords(t: string, words: seq<string>): (r: Option<nat>)
    ensures r.Some? ==> r.value <= |t|
    decreases |words|
  {
    if words == [] then Some(0)
    else if !StartsWithWord(t, words[0]) then None
    else if |words| == 1 then Some(|words[0]|)
    else
      var rest := t[|words[0]|..];
      var gap := SpaceRun(rest);
      if gap == 0 then None
      else match MatchWords(rest[gap..], words[1..])
        case None => None
        case Some(k) => Some(|words[0]| + gap + k)
  }

  /** `s` spells the keyword `words`: each word in any ASCII case, the words
      separated by non-empty runs of whitespace, and nothing else. */
  predicate Spells(s: string, words: seq<string>)
    decreases |words|
  {
    if words == [] then s == []
    else if |words| == 1 then Lower(s) == words[0]
    else
      var n := |words[0]|;
      && n <= |s| && Lower(s[..n]) == words[0]
      && exists g :: n < g <= |s| && AllSpace(s[n..g]) && Spells(s[g..], words[1..])
  }

  /** What the matcher matched spells the keyword. */
  lemma {:induction false} MatchWordsSound(t: string, words: seq<string>)
    ensures MatchWords(t, words).Some? ==> Spells(t[..MatchWords(t, words).value], words)
    decreases |words|
  {
    if MatchWords(t, words).Some? && |words| > 1 {
      var n := |words[0]|;
      var gap := SpaceRun(t[n..]);
      var rest := t[n..][gap..];
      MatchWordsSound(rest, words[1..]);
      SpellsStep(t, words, gap, rest, MatchWords(rest, words[1..]).value);
    }
  }

  /** A first word, a whitespace run and a spelling of the other words make
      a spelling of the keyword. */
  lemma SpellsStep(t: string, words: seq<string>, gap: nat, rest: string, m: nat)
    requires |words| > 1 && StartsWithWord(t, words[0])
    requires 0 < gap <= |t| - |words[0]| && AllSpace(t[|words[0]|..][..gap])
    requires rest == t[|words[0]|..][gap..]
    requires m <= |rest| && Spells(rest[..m], words[1..])
    ensures Spells(t[..|words[0]| + gap + m], words)
  {
    var n := |words[0]|;
    var s := t[..n + gap + m];
    assert s[..n] == t[..n];
    assert s[n..n + gap] == t[n..][..gap];
    assert s[n + gap..] == rest[..m];
  }

  /** A spelling of the keyword at the start of the text is matched in
      full, provided no word after the first is empty or starts with
      whitespace (true of every keyword here). */
  lemma {:induction false} MatchWordsComplete(t: string, words: seq<string>, k: nat)
    requires k <= |t| && Spells(t[..k], words)
    requires forall i :: 1 <= i < |words| ==> words[i] != [] && !IsSpace(words[i][0])
    ensures MatchWords(t, words) == Some(k)
    decreases |words|
  {
    if words == [] {
      assert |t[..k]| == 0;
    } else if |words| == 1 {
      MatchOneWord(t, words, k);
    } else {
      var gap, rest, m := SpellingSplit(t, words, k);
      LaterWordsOfTail(words);
      MatchWordsComplete(rest, words[1..], m);
      MatchWordsStep(t, words, gap, rest, m);
    }
  }

  lemma LaterWordsOfTail(words: seq<string>)
    requires words != []
    requires forall i :: 1 <= i < |words| ==> words[i] != [] && !IsSpace(words[i][0])
    ensures forall i :: 1 <= i < |words[1..]| ==> words[1..][i] != [] && !IsSpace(words[1..][i][0])
  {
    assert forall i :: 1 <= i < |words[1..]| ==> words[1..][i] == words[i + 1];
  }

  /** For the four keywords of the extractor, the matcher matches a prefix
      of length `k` exactly when that prefix spells the keyword. */
  lemma KeywordMatchIffSpelled(t: string, pat: Pattern, k: nat)
    requires pat in RevenuePatterns + ProfitPatterns
    ensures MatchWords(t, pat.words) == Some(k) <==> k <= |t| && Spells(t[..k], pat.words)
  {
    MatchWordsSound(t, pat.words);
    LaterWordsVisible(pat);
    if k <= |t| && Spells(t[..k], pat.words) {
      MatchWordsComplete(t, pat.words, k);
    }
  }

  /** Every word of the extractor's keywords after the first starts with a
      letter. */
  lemma LaterWordsVisible(pat: Pattern)
    requires pat in RevenuePatterns + ProfitPatterns
    ensures forall i :: 1 <= i < |pat.words| ==> pat.words[i] != [] && !IsSpace(pat.words[i][0])
  {
    assert RevenuePatterns + ProfitPatterns == [RevenuePattern, SalesPattern, NetIncomePattern, NetProfitPattern];
    if pat == NetIncomePattern {
      assert pat.words[1][0] == 'i';
    } else if pat == NetProfitPattern {
      assert pat.words[1][0] == 'p';
    }
  }

  lemma MatchOneWord(t: string, words: seq<string>, k: nat)
    requires |words| == 1 && k <= |t| && Spells(t[..k], words)
    ensures MatchWords(t, words) == Some(k)
  {
    assert |Lower(t[..k])| == k;
    assert t[..|words[0]|] == t[..k];
    assert StartsWithWord(t, words[0]);
  }

  /** Where the second word of a spelling at the start of `t` begins: the
      first word is there, the whitespace after it is the whole run, and
      what follows starts with a spelling of the other words, `m` long. */
  lemma SpellingSplit(t: string, words: seq<string>, k: nat) returns (gap: nat, rest: string, m: nat)
    requires |words| > 1 && k <= |t| && Spells(t[..k], words)
    requires forall i :: 1 <= i < |words| ==> words[i] != [] && !IsSpace(words[i][0])
    ensures StartsWithWord(t, words[0])
    ensures SpaceRun(t[|words[0]|..]) == gap > 0
    ensures rest == t[|words[0]|..][gap..]
    ensures m <= |rest| && Spells(rest[..m], words[1..])
    ensures k == |words[0]| + gap + m
  {
    var s := t[..k];
    var n := |words[0]|;
    var g :| n < g <= |s| && AllSpace(s[n..g]) && Spells(s[g..], words[1..]);
    assert t[..n] == s[..n];
    SpellingStartsVisible(s[g..], words[1..]);
    GapIsSpaceRun(t, n, g, k);
    gap, rest, m := g - n, t[n..][g - n..], k - g;
    assert rest[..m] == s[g..];
  }

  /** One step of the matcher: the first word, the whitespace run, the rest. */
  lemma MatchWordsStep(t: string, words: seq<string>, gap: nat, rest: string, m: nat)
    requires |words| > 1 && StartsWithWord(t, words[0])
    requires SpaceRun(t[|words[0]|..]) == gap > 0
    requires rest == t[|words[0]|..][gap..]
    requires MatchWords(rest, words[1..]) == Some(m)
    ensures MatchWords(t, words) == Some(|words[0]| + gap + m)
  {
  }

  /** The whitespace between two words of a spelling is the whole run. */
  lemma GapIsSpaceRun(t: string, n: nat, g: nat, k: nat)
    requires n < g < k <= |t|
    requires AllSpace(t[..k][n..g]) && !IsSpace(t[..k][g..][0])
    ensures SpaceRun(t[n..]) == g - n
  {
    var rest := t[n..];
    assert rest[..g - n] == t[..k][n..g];
    assert rest[g - n..][0] == t[..k][g..][0];
    assert rest == rest[..g - n] + rest[g - n..];
    RunOfSpaces(rest[..g - n], rest[g - n..]);
  }

  /** A spelling starts with the first character of its first word, up to
      case, so it starts with whitespace only when that word does. */
  lemma SpellingStartsVisible(s: string, words: seq<string>)
    requires words != [] && words[0] != [] && !IsSpace(words[0][0])
    requires Spells(s, words)
    ensures s != [] && !IsSpace(s[0])
  {
    var n := |words[0]|;
    assert n <= |s|;
    assert Lower(s[..n])[0] == ToLower(s[0]);
  }

  /** The characters a capture is made of: digits and commas, then possibly
      one `.` and digits. */
  predicate CaptureShape(c: string) {
    && c != []
    && IsDigitOrComma(c[0])
    && (forall i :: 0 <= i < |c| ==> IsDigitOrComma(c[i]) || c[i] == '.')
    && (forall i, j :: 0 <= i < j < |c| && c[i] == '.' ==> IsDigit(c[j]))
  }

  predicate AllDigitOrComma(s: string) {
    forall i :: 0 <= i < |s| ==> IsDigitOrComma(s[i])
  }

  /** An integer part and a fraction put together have the shape of a capture. */
  lemma ShapeOfParts(whole: string, frac: string)
    requires whole != [] && AllDigitOrComma(whole) && AllDigits(frac)
    ensures CaptureShape(whole)
    ensures CaptureShape(whole + "." + frac)
  {
    var c := whole + "." + frac;
    forall i, j | 0 <= i < j < |c| && c[i] == '.' ensures IsDigit(c[j]) {
      assert i == |whole|;
      assert c[j] == frac[j - |whole| - 1];
    }
  }

  /** Group 1 at the start of `w`: `[\d,]+` followed by an optional `.` and
      digits. There is a capture exactly when `w` starts with a digit or a
      comma. */
  function Amount(w: string): (r: Option<string>)
    ensures r.Some? <==> w != [] && IsDigitOrComma(w[0])
    ensures r.Some? ==> CaptureShape(r.value)
  {
    var n := RunOf(w, IsDigitOrComma);
    if n == 0 then None
    else
      var rest := w[n..];
      if rest != [] && rest[0] == '.' then
        var frac := rest[1..][..RunOf(rest[1..], IsDigit)];
        ShapeOfParts(w[..n], frac);
        Some(w[..n] + "." + frac)
      else
        ShapeOfParts(w[..n], "");
        Some(w[..n])
  }

  /** The capture is a prefix of `w` that the next character cannot extend:
      that character is not a digit, and, when the capture has no dot, not a
      comma or a dot either. */
  lemma AmountIsMaximal(w: string)
    ensures var r := Amount(w);
      && (r.Some? ==> |r.value| <= |w| && w[..|r.value|] == r.value)
      && (r.Some? && |r.value| < |w| ==> !IsDigit(w[|r.value|]))
      && (r.Some? && |r.value| < |w| && '.' !in r.value ==> w[|r.value|] != ',' && w[|r.value|] != '.')
  {
    var n := RunOf(w, IsDigitOrComma);
    if n > 0 {
      var rest := w[n..];
      if rest != [] && rest[0] == '.' {
        var frac := rest[1..][..RunOf(rest[1..], IsDigit)];
        assert w[..n + 1 + |frac|] == w[..n] + "." + frac;
      } else {
        assert '.' !in w[..n] by {
          forall i | 0 <= i < n ensures w[..n][i] != '.' {
            assert IsDigitOrComma(w[i]);
          }
        }
      }
    }
  }

  /** The greedy capture is the only one: a prefix of `w` with the shape of a
      capture that the next character cannot extend is what `Amount` finds. */
  lemma AmountIsGreedy(w: string, c: string)
    requires CaptureShape(c) && |c| <= |w| && w[..|c|] == c
    requires |c| < |w| ==> !IsDigit(w[|c|])
    requires |c| < |w| && '.' !in c ==> w[|c|] != ',' && w[|c|] != '.'
    ensures Amount(w) == Some(c)
  {
    if '.' in c {
      GreedyWithFraction(w, c);
    } else {
      GreedyWhole(w, c);
    }
  }

  lemma GreedyWhole(w: string, c: string)
    requires CaptureShape(c) && |c| <= |w| && w[..|c|] == c && '.' !in c
    requires |c| < |w| ==> !IsDigit(w[|c|]) && w[|c|] != ',' && w[|c|] != '.'
    ensures Amount(w) == Some(c)
  {
    assert forall i :: 0 <= i < |c| ==> IsDigitOrComma(c[i]);
    assert c + w[|c|..] == w;
    RunOfPrefix(c, w[|c|..], IsDigitOrComma);
  }

  lemma GreedyWithFraction(w: string, c: string)
    requires CaptureShape(c) && |c| <= |w| && w[..|c|] == c && '.' in c
    requires |c| < |w| ==> !IsDigit(w[|c|])
    ensures Amount(w) == Some(c)
  {
    var m := DotIndex(c);
    WholePartRun(w, c, m);
    FractionRun(w, c, m);
    AmountWithFraction(w, m, |c| - m - 1);
    SplitAtDot(w, c, m);
  }

  /** A prefix `c` of `w` with a dot at `m` is what lies before and after it. */
  lemma SplitAtDot(w: string, c: string, m: nat)
    requires |c| <= |w| && w[..|c|] == c && m < |c| && c[m] == '.'
    ensures w[..m] + "." + w[m + 1..][..|c| - m - 1] == c
  {
    assert w[..m] == c[..m];
    assert w[m + 1..][..|c| - m - 1] == c[m + 1..];
    assert c == c[..m] + "." + c[m + 1..];
  }

  lemma WholePartRun(w: string, c: string, m: nat)
    requires CaptureShape(c) && |c| <= |w| && w[..|c|] == c
    requires m < |c| && c[m] == '.' && forall i :: 0 <= i < m ==> c[i] != '.'
    ensures RunOf(w, IsDigitOrComma) == m
  {
    assert forall i :: 0 <= i < m ==> IsDigitOrComma(c[i]);
    assert c[..m] + w[m..] == w;
    RunOfPrefix(c[..m], w[m..], IsDigitOrComma);
  }

  lemma FractionRun(w: string, c: string, m: nat)
    requires CaptureShape(c) && |c| <= |w| && w[..|c|] == c
    requires m < |c| && c[m] == '.'
    requires |c| < |w| ==> !IsDigit(w[|c|])
    ensures RunOf(w[m + 1..], IsDigit) == |c| - m - 1
  {
    SuffixAfter(w, c, m + 1);
    assert forall i :: m + 1 <= i < |c| ==> IsDigit(c[i]);
    RunOfPrefix(c[m + 1..], w[|c|..], IsDigit);
  }

  /** `Amount` when the digits and commas are followed by a dot. */
  lemma AmountWithFraction(w: string, n: nat, f: nat)
    requires 0 < n < |w| && w[n] == '.'
    requires RunOf(w, IsDigitOrComma) == n
    requires RunOf(w[n + 1..], IsDigit) == f
    ensures Amount(w) == Some(w[..n] + "." + w[n + 1..][..f])
  {
    assert w[n..][1..] == w[n + 1..];
  }

  /** Past position `i` of a prefix `c` of `w`, `w` continues with the rest
      of `c` and then what follows `c`. */
  lemma SuffixAfter(w: string, c: string, i: nat)
    requires i <= |c| <= |w| && w[..|c|] == c
    ensures w[i..] == c[i..] + w[|c|..]
  {
    assert w[i..|c|] == c[i..];
  }

  predicate AllColonOrSpace(s: string) {
    forall i :: 0 <= i < |s| ==> IsColonOrSpace(s[i])
  }

  /** `sep` is made of what `[:\s]*\$?` can take: colons and whitespace,
      possibly ending in one `$`. */
  predicate LeadInText(sep: string) {
    AllColonOrSpace(sep) || (sep != [] && sep[|sep| - 1] == '$' && AllColonOrSpace(sep[..|sep| - 1]))
  }

  /** `sep` is what `[:\s]*\$?` takes in front of `w`: every colon and
      whitespace character there is, then the `$` if one follows. */
  predicate LeadIn(sep: string, w: string) {
    && LeadInText(sep)
    && ((sep != [] && sep[|sep| - 1] == '$') || w == [] || (!IsColonOrSpace(w[0]) && w[0] != '$'))
  }

  /** Any split of `u` into a lead-in and the rest puts the split where the
      greedy scan does. */
  lemma LeadInUnique(u: string)
    ensures var v := u[RunOf(u, IsColonOrSpace)..];
      forall sep, x :: u == sep + x && LeadIn(sep, x) ==> x == (if v != [] && v[0] == '$' then v[1..] else v)
  {
    var v := u[RunOf(u, IsColonOrSpace)..];
    forall sep, x | u == sep + x && LeadIn(sep, x)
      ensures x == (if v != [] && v[0] == '$' then v[1..] else v)
    {
      if sep != [] && sep[|sep| - 1] == '$' {
        var s := sep[..|sep| - 1];
        assert u == s + ("$" + x);
        RunOfPrefix(s, "$" + x, IsColonOrSpace);
        assert v == "$" + x;
      } else {
        assert sep + x == u;
        RunOfPrefix(sep, x, IsColonOrSpace);
        assert v == x;
      }
    }
  }

  /** What is left of `u` once `[:\s]*\$?` has taken its lead-in. */
  function AfterLeadIn(u: string): string {
    var v := u[RunOf(u, IsColonOrSpace)..];
    if v != [] && v[0] == '$' then v[1..] else v
  }

  /** What follows the keyword: `[:\s]*`, an optional `$`, then group 1. */
  function AmountAt(t: string, k: nat): (r: Option<string>)
    requires k <= |t|
    ensures r.Some? ==> CaptureShape(r.value)
  {
    Amount(AfterLeadIn(t[k..]))
  }

  /** Group 1 after the keyword ending at `k`: for the one split of the rest
      of the text into a lead-in and a remainder, it is the greedy capture at
      the start of the remainder, present exactly when the remainder starts
      with a digit or a comma. */
  lemma AmountAtIsGroup(t: string, k: nat, sep: string, w: string)
    requires k <= |t| && t[k..] == sep + w && LeadIn(sep, w)
    ensures AmountAt(t, k) == Amount(w)
    ensures AmountAt(t, k).Some? <==> w != [] && IsDigitOrComma(w[0])
  {
    LeadInUnique(t[k..]);
  }

  /** There is always such a split: a lead-in followed by a remainder. */
  lemma LeadInExists(u: string)
    ensures exists sep, w :: u == sep + w && LeadIn(sep, w)
  {
    var n := RunOf(u, IsColonOrSpace);
    if n < |u| && u[n] == '$' {
      assert u[..n + 1][..n] == u[..n];
      assert u == u[..n + 1] + u[n + 1..];
      assert LeadIn(u[..n + 1], u[n + 1..]);
    } else {
      assert u == u[..n] + u[n..];
      assert LeadIn(u[..n], u[n..]);
    }
  }

  /** Group 1 of the pattern when it matches `text` at position `q`. */
  function CaptureAt(text: string, q: nat, pat: Pattern): Option<string>
    requires q <= |text|
  {
    match MatchWords(text[q..], pat.words)
    case None => None
    case Some(k) => AmountAt(text, q + k)
  }

  /** The pattern matches `text` at position `q`. */
  predicate MatchesAt(text: string, pat: Pattern, q: nat) {
    q <= |text| && CaptureAt(text, q, pat).Some?
  }

  /** The leftmost position at or after `p` where the pattern matches. */
  function FirstMatchFrom(text: string, pat: Pattern, p: nat): (r: Option<nat>)
    requires p <= |text|
    ensures r.Some? ==> p <= r.value <= |text| && MatchesAt(text, pat, r.value)
    ensures r.Some? ==> forall q :: p <= q < r.value ==> !MatchesAt(text, pat, q)
    ensures r.None? ==> forall q :: p <= q <= |text| ==> !MatchesAt(text, pat, q)
    decreases |text| - p
  {
    if MatchesAt(text, pat, p) then Some(p)
    else if p == |text| then None
    else FirstMatchFrom(text, pat, p + 1)
  }

  /** `re.search(pattern, text, re.IGNORECASE)`: the leftmost position where
      the pattern matches, with its group 1. */
  function Search(text: string, pat: Pattern): Option<(nat, string)> {
    match FirstMatchFrom(text, pat, 0)
    case None => None
    case Some(q) => Some((q, CaptureAt(text, q, pat).value))
  }

  /** A search result is a match whose group 1 is the capture there, no
      earlier position matches, and there is none only when no position
      matches at all. */
  lemma SearchIsLeftmost(text: string, pat: Pattern)
    ensures var r := Search(text, pat);
      && (r.Some? ==> r.value.0 <= |text| && CaptureAt(text, r.value.0, pat) == Some(r.value.1))
      && (r.Some? ==> forall q :: 0 <= q < r.value.0 ==> !MatchesAt(text, pat, q))
      && (r.None? ==> forall q :: 0 <= q <= |text| ==> !MatchesAt(text, pat, q))
  {
  }

  /** The first successful search in `found`, with its index. */
  function FirstFound(found: seq<Option<(nat, string)>>): (r: Option<(nat, string)>)
    ensures r.Some? ==> r.value.0 < |found|
  {
    if found == [] then None
    else if found[0].Some? then Some((0, found[0].value.1))
    else
      var later := FirstFound(found[1..]);
      if later.None? then None else Some((later.value.0 + 1, later.value.1))
  }

  /** `FirstFound` picks the earliest success and misses none. */
  lemma {:induction false} FirstFoundIsFirst(found: seq<Option<(nat, string)>>)
    ensures var r := FirstFound(found);
      && (r.Some? ==> found[r.value.0].Some? && found[r.value.0].value.1 == r.value.1)
      && (r.Some? ==> forall j :: 0 <= j < r.value.0 ==> found[j].None?)
      && (r.None? ==> forall j :: 0 <= j < |found| ==> found[j].None?)
  {
    if found != [] && found[0].None? {
      FirstFoundIsFirst(found[1..]);
      var later := FirstFound(found[1..]);
      assert forall j :: 1 <= j < |found| ==> found[j] == found[1..][j - 1];
      if later.Some? {
        assert found[later.value.0 + 1] == found[1..][later.value.0];
      }
    }
  }

  /** The capture of the first pattern in `pats` that matches anywhere in
      `text`, with that pattern's index: the patterns are searched in list
      order and the loop stops at the first hit. */
  function FirstMatching(text: string, pats: seq<Pattern>): (r: Option<(nat, string)>)
    ensures r.Some? ==> r.value.0 < |pats|
  {
    FirstFound(seq(|pats|, i requires 0 <= i < |pats| => Search(text, pats[i])))
  }

  /** Patterns are tried in list order and the first one found anywhere in
      the text decides: every earlier pattern is absent from the text, and
      nothing is chosen only when every pattern is absent. */
  lemma FirstMatchingChoosesFirst(text: string, pats: seq<Pattern>)
    ensures var r := FirstMatching(text, pats);
      && (r.Some? ==> Search(text, pats[r.value.0]).Some? && Search(text, pats[r.value.0]).value.1 == r.value.1)
      && (r.Some? ==> forall j :: 0 <= j < r.value.0 ==> Search(text, pats[j]).None?)
      && (r.None? ==> forall j :: 0 <= j < |pats| ==> Search(text, pats[j]).None?)
  {
    var found := seq(|pats|, i requires 0 <= i < |pats| => Search(text, pats[i]));
    assert FirstMatching(text, pats) == FirstFound(found);
    assert forall j :: 0 <= j < |pats| ==> found[j] == Search(text, pats[j]);
    FirstFoundIsFirst(found);
  }

  // ---------------------------------------------------------------------
  // float(group.replace(',', ''))
  // ---------------------------------------------------------------------

  predicate NotComma(c: char) {
    c != ','
  }

  datatype Parse = Parsed(value: real) | ParseError(message: string)

  /** Index of the first `.` in `s`, or `|s|`. */
  function DotIndex(s: string): (i: nat)
    ensures i <= |s|
    ensures forall j :: 0 <= j < i ==> s[j] != '.'
    ensures i < |s| ==> s[i] == '.'
  {
    if s == [] || s[0] == '.' then 0 else 1 + DotIndex(s[1..])
  }

  function Pow10(n: nat): (r: nat)
    ensures r >= 1
  {
    if n == 0 then 1 else 10 * Pow10(n - 1)
  }

  /** The number written `whole.frac`. */
  function DecimalValue(whole: string, frac: string): real
    requires AllDigits(whole) && AllDigits(frac)
  {
    DigitsValue(whole) as real + DigitsValue(frac) as real / Pow10(|frac|) as real
  }

  /** `float(s)` on the strings a capture can become once its commas are
      gone: digits, optionally a `.` and more digits, with at least one digit
      somewhere. Anything else raises `ValueError` with this message. */
  function ParseFloat(s: string): Parse {
    var d := DotIndex(s);
    var whole := s[..d];
    var frac := if d < |s| then s[d + 1..] else "";
    if AllDigits(whole) && AllDigits(frac) && |whole| + |frac| > 0 then
      Parsed(DecimalValue(whole, frac))
    else ParseError("could not convert string to float: '" + s + "'")
  }

  /** The number a capture stands for. */
  function CaptureValue(capture: string): Parse {
    ParseFloat(Filter(capture, NotComma))
  }

  predicate HasDigit(s: string) {
    exists i :: 0 <= i < |s| && IsDigit(s[i])
  }

  /** Digits and dots, with only digits after the first dot: what a capture
      becomes once its commas are gone. */
  predicate NumberChars(s: string) {
    && (forall i :: 0 <= i < |s| ==> IsDigit(s[i]) || s[i] == '.')
    && (forall i, j :: 0 <= i < j < |s| && s[i] == '.' ==> IsDigit(s[j]))
  }

  /** Removing the commas leaves digits and dots, with only digits after a dot. */
  lemma {:induction false} StripCommasShape(c: string)
    requires forall i :: 0 <= i < |c| ==> IsDigitOrComma(c[i]) || c[i] == '.'
    requires forall i, j :: 0 <= i < j < |c| && c[i] == '.' ==> IsDigit(c[j])
    ensures NumberChars(Filter(c, NotComma))
  {
    if c != [] {
      StripCommasShape(c[1..]);
      if c[0] == '.' {
        assert forall i :: 0 <= i < |c[1..]| ==> NotComma(c[1..][i]) by {
          forall i | 0 <= i < |c[1..]| ensures NotComma(c[1..][i]) {
            assert IsDigit(c[i + 1]);
          }
        }
        FilterAll(c[1..], NotComma);
      }
    }
  }

  /** Removing the commas keeps every digit. */
  lemma {:induction false} StripCommasDigits(c: string)
    ensures HasDigit(Filter(c, NotComma)) <==> HasDigit(c)
  {
    if c != [] {
      var tail := Filter(c[1..], NotComma);
      StripCommasDigits(c[1..]);
      var f := Filter(c, NotComma);
      var lead := if NotComma(c[0]) then [c[0]] else [];
      assert f == lead + tail;
      if HasDigit(c) {
        if IsDigit(c[0]) {
          assert f[0] == c[0];
        } else {
          var k :| 0 <= k < |c| && IsDigit(c[k]);
          assert IsDigit(c[1..][k - 1]);
          var m :| 0 <= m < |tail| && IsDigit(tail[m]);
          assert f[|lead| + m] == tail[m];
        }
      }
      if HasDigit(f) {
        var k :| 0 <= k < |f| && IsDigit(f[k]);
        if k < |lead| {
          assert IsDigit(c[0]);
        } else {
          assert IsDigit(tail[k - |lead|]);
          var m :| 0 <= m < |c[1..]| && IsDigit(c[1..][m]);
          assert IsDigit(c[m + 1]);
        }
      }
    }
  }

  /** `float()` accepts a string of digits and dots, with only digits after
      the first dot, exactly when it holds at least one digit. */
  lemma ParseNumberChars(s: string)
    requires NumberChars(s)
    ensures ParseFloat(s).Parsed? <==> HasDigit(s)
  {
    var d := DotIndex(s);
    var whole := s[..d];
    var frac := if d < |s| then s[d + 1..] else "";
    assert AllDigits(whole) by {
      forall i | 0 <= i < |whole| ensures IsDigit(whole[i]) {
        assert s[i] != '.';
      }
    }
    assert AllDigits(frac) by {
      forall i | 0 <= i < |frac| ensures IsDigit(frac[i]) {
        assert frac[i] == s[d + 1 + i];
      }
    }
    if HasDigit(s) {
      var k :| 0 <= k < |s| && IsDigit(s[k]);
      assert k < d || (d < |s| && k > d);
    }
    if |whole| > 0 {
      assert IsDigit(s[0]);
    } else if |frac| > 0 {
      assert IsDigit(s[d + 1]);
    }
  }

  /** A capture fails to convert exactly when it holds no digit, as for the
      capture "," of "Revenue: ,"; then the extraction reports `float()`'s
      message. */
  lemma CaptureParsesIffDigit(c: string)
    requires CaptureShape(c)
    ensures CaptureValue(c).Parsed? <==> HasDigit(c)
    ensures CaptureValue(c).ParseError? ==>
      CaptureValue(c).message == "could not convert string to float: '" + Filter(c, NotComma) + "'"
  {
    StripCommasShape(c);
    StripCommasDigits(c);
    ParseNumberChars(Filter(c, NotComma));
  }

  /** `float()` of a string of digits is its value. */
  lemma ParseWhole(s: string)
    requires s != [] && AllDigits(s)
    ensures ParseFloat(s) == Parsed(DigitsValue(s) as real)
  {
    DigitsHaveNoDot(s);
    assert s[..DotIndex(s)] == s;
    assert ParseFloat(s) == Parsed(DecimalValue(s, ""));
    NoFraction(s);
  }

  lemma NoFraction(s: string)
    requires AllDigits(s)
    ensures DecimalValue(s, "") == DigitsValue(s) as real
  {
    assert DigitsValue("") == 0 && Pow10(0) == 1;
  }

  /** `float(str(n)) == n`. */
  lemma ParseNatString(n: nat)
    ensures ParseFloat(NatToString(n)) == Parsed(n as real)
  {
    NatToStringRoundTrip(n);
    ParseWhole(NatToString(n));
  }

  lemma DigitsHaveNoDot(s: string)
    requires AllDigits(s)
    ensures DotIndex(s) == |s|
  {
    if s != [] {
      assert AllDigits(s[1..]);
      DigitsHaveNoDot(s[1..]);
    }
  }

  /** `float(a + "." + b)` for digit strings: the integer part plus the
      fraction scaled by its number of digits. */
  lemma ParseDecimal(a: string, b: string)
    requires AllDigits(a) && AllDigits(b) && |a| + |b| > 0
    ensures ParseFloat(a + "." + b) == Parsed(DecimalValue(a, b))
  {
    var s := a + "." + b;
    DigitsHaveNoDot(a);
    DotIndexPast(a, "." + b);
    assert a + "." + b == a + ("." + b);
    var d := DotIndex(s);
    assert d == |a| < |s|;
    var whole, frac := s[..d], s[d + 1..];
    assert whole == a;
    assert frac == b;
    assert AllDigits(whole) && AllDigits(frac);
  }

  lemma DotIndexPast(a: string, b: string)
    requires DotIndex(a) == |a| && b != [] && b[0] == '.'
    ensures DotIndex(a + b) == |a|
  {
    if a == [] {
      assert a + b == b;
    } else {
      assert (a + b)[1..] == a[1..] + b;
      DotIndexPast(a[1..], b);
    }
  }

  // ---------------------------------------------------------------------
  // Extraction
  // ---------------------------------------------------------------------

  datatype Extraction = Extracted(metrics: MetricSet) | ExtractionError(message: string)

  /** The metric set so far, extended with `key` from the first matching
      pattern of `pats`; a capture that does not parse is an error, exactly
      as `float()` raising aborts the whole extraction. */
  function AddMetric(acc: MetricSet, text: string, pats: seq<Pattern>, key: Metric): Extraction {
    match FirstMatching(text, pats)
    case None => Extracted(acc)
    case Some(hit) =>
      match CaptureValue(hit.1)
      case ParseError(msg) => ExtractionError(msg)
      case Parsed(v) => Extracted(acc[key := v])
  }

  /** The capture the extractor uses for a metric, if any pattern matches. */
  function Chosen(text: string, pats: seq<Pattern>): Option<string> {
    match FirstMatching(text, pats)
    case None => None
    case Some(hit) => Some(hit.1)
  }

  /** The metric found through `pats` fails to parse. */
  predicate ChosenFails(text: string, pats: seq<Pattern>) {
    Chosen(text, pats).Some? && CaptureValue(Chosen(text, pats).value).ParseError?
  }

  /** `_extract_financial_metrics(text)`: revenue first, then net income.
      A metric is present exactly when one of its patterns matches; its value
      is that of the first matching pattern's capture; the extraction fails
      exactly when a chosen capture has no number in it, and then with the
      first such failure's message. */
  function ExtractMetrics(text: string): (r: Extraction)
    ensures r.ExtractionError? <==> ChosenFails(text, RevenuePatterns) || ChosenFails(text, ProfitPatterns)
    ensures r.ExtractionError? && ChosenFails(text, RevenuePatterns) ==>
      r.message == CaptureValue(Chosen(text, RevenuePatterns).value).message
    ensures r.ExtractionError? && !ChosenFails(text, RevenuePatterns) ==>
      r.message == CaptureValue(Chosen(text, ProfitPatterns).value).message
    ensures r.Extracted? ==> (Revenue in r.metrics <==> Chosen(text, RevenuePatterns).Some?)
    ensures r.Extracted? ==> (NetIncome in r.metrics <==> Chosen(text, ProfitPatterns).Some?)
    ensures r.Extracted? && Revenue in r.metrics ==>
      CaptureValue(Chosen(text, RevenuePatterns).value) == Parsed(r.metrics[Revenue])
    ensures r.Extracted? && NetIncome in r.metrics ==>
      CaptureValue(Chosen(text, ProfitPatterns).value) == Parsed(r.metrics[NetIncome])
  {
    match AddMetric(map[], text, RevenuePatterns, Revenue)
    case ExtractionError(msg) => ExtractionError(msg)
    case Extracted(m) => AddMetric(m, text, ProfitPatterns, NetIncome)
  }

  /** Of two patterns the first one found anywhere decides, wherever in the
      text the second one would have matched. */
  lemma FirstOfTwo(text: string, a: Pattern, b: Pattern)
    ensures Chosen(text, [a, b]) ==
      if Search(text, a).Some? then Some(Search(text, a).value.1)
      else if Search(text, b).Some? then Some(Search(text, b).value.1)
      else None
  {
    FirstMatchingChoosesFirst(text, [a, b]);
    assert [a, b][0] == a && [a, b][1] == b;
  }

  /** First match wins: when the `revenue` pattern matches anywhere, the
      `sales` pattern is never consulted; likewise `net income` over
      `net profit`. */
  lemma PatternPriority(text: string)
    ensures Search(text, RevenuePattern).Some? ==>
      Chosen(text, RevenuePatterns) == Some(Search(text, RevenuePattern).value.1)
    ensures Search(text, RevenuePattern).None? ==>
      Chosen(text, RevenuePatterns) == (if Search(text, SalesPattern).Some? then Some(Search(text, SalesPattern).value.1) else None)
    ensures Search(text, NetIncomePattern).Some? ==>
      Chosen(text, ProfitPatterns) == Some(Search(text, NetIncomePattern).value.1)
    ensures Search(text, NetIncomePattern).None? ==>
      Chosen(text, ProfitPatterns) == (if Search(text, NetProfitPattern).Some? then Some(Search(text, NetProfitPattern).value.1) else None)
  {
    FirstOfTwo(text, RevenuePattern, SalesPattern);
    FirstOfTwo(text, NetIncomePattern, NetProfitPattern);
  }

  // ---------------------------------------------------------------------
  // A stated figure is read back
  // ---------------------------------------------------------------------

  /** A run stops exactly at the first character that does not belong. */
  lemma {:induction false} RunOfPrefix(a: string, b: string, p: char -> bool)
    requires forall i :: 0 <= i < |a| ==> p(a[i])
    requires b == [] || !p(b[0])
    ensures RunOf(a + b, p) == |a|
  {
    if a == [] {
      assert a + b == b;
    } else {
      assert (a + b)[1..] == a[1..] + b;
      RunOfPrefix(a[1..], b, p);
    }
  }

  /** A figure as a document writes it: digits grouped by commas, then
      possibly a decimal point and more digits. */
  function Written(whole: string, frac: Option<string>): string {
    if frac.Some? then whole + "." + frac.value else whole
  }

  predicate WellWritten(whole: string, frac: Option<string>) {
    whole != [] && AllDigitOrComma(whole) && HasDigit(whole) && (frac.Some? ==> AllDigits(frac.value))
  }

  /** What follows a figure does not continue it. */
  predicate Ends(frac: Option<string>, rest: string) {
    rest == [] || (!IsDigit(rest[0]) && (frac.None? ==> rest[0] != ',' && rest[0] != '.'))
  }

  /** Dropping the commas of digits and commas leaves digits. */
  lemma {:induction false} StripCommasAllDigits(s: string)
    requires AllDigitOrComma(s)
    ensures AllDigits(Filter(s, NotComma))
  {
    if s != [] {
      StripCommasAllDigits(s[1..]);
      var lead := if NotComma(s[0]) then [s[0]] else [];
      assert Filter(s, NotComma) == lead + Filter(s[1..], NotComma);
    }
  }

  /** The number a written figure stands for: the commas are ignored. */
  function WrittenValue(whole: string, frac: Option<string>): real
    requires WellWritten(whole, frac)
  {
    StripCommasAllDigits(whole);
    DecimalValue(Filter(whole, NotComma), if frac.Some? then frac.value else "")
  }

  /** Written after a lead-in of colons, whitespace and an optional `$`, the
      whole figure is group 1. */
  lemma StatedAmount(pre: string, sep: string, whole: string, frac: Option<string>, rest: string)
    requires LeadInText(sep) && WellWritten(whole, frac) && Ends(frac, rest)
    ensures AmountAt(pre + sep + Written(whole, frac) + rest, |pre|) == Some(Written(whole, frac))
  {
    var c := Written(whole, frac);
    var w := c + rest;
    var t := pre + sep + w;
    assert t == pre + sep + c + rest;
    assert t[|pre|..] == sep + w;
    WrittenLeadIn(sep, whole, frac, rest);
    AmountAtIsGroup(t, |pre|, sep, w);
    WrittenIsGreedy(whole, frac, rest);
  }

  lemma WrittenLeadIn(sep: string, whole: string, frac: Option<string>, rest: string)
    requires LeadInText(sep) && WellWritten(whole, frac)
    ensures LeadIn(sep, Written(whole, frac) + rest)
  {
    assert (Written(whole, frac) + rest)[0] == whole[0];
  }

  /** A written figure followed by what does not continue it is group 1. */
  lemma WrittenIsGreedy(whole: string, frac: Option<string>, rest: string)
    requires WellWritten(whole, frac) && Ends(frac, rest)
    ensures Amount(Written(whole, frac) + rest) == Some(Written(whole, frac))
  {
    var c := Written(whole, frac);
    var w := c + rest;
    ShapeOfParts(whole, if frac.Some? then frac.value else "");
    assert w[..|c|] == c;
    if frac.None? {
      assert '.' !in c by {
        forall i | 0 <= i < |c| ensures c[i] != '.' {
          assert IsDigitOrComma(whole[i]);
        }
      }
    } else {
      assert c[|whole|] == '.';
    }
    AmountIsGreedy(w, c);
  }

  /** `float()` of a written figure without its commas is its value. */
  lemma WrittenParses(whole: string, frac: Option<string>)
    requires WellWritten(whole, frac)
    ensures CaptureValue(Written(whole, frac)) == Parsed(WrittenValue(whole, frac))
  {
    var a := Filter(whole, NotComma);
    StripCommasAllDigits(whole);
    StripCommasDigits(whole);
    assert a != [];
    if frac.Some? {
      var f := frac.value;
      assert Written(whole, frac) == whole + ("." + f);
      FilterConcat(whole, "." + f, NotComma);
      assert forall i :: 0 <= i < |"." + f| ==> NotComma(("." + f)[i]) by {
        forall i | 0 <= i < |"." + f| ensures NotComma(("." + f)[i]) {
          if i > 0 {
            assert ("." + f)[i] == f[i - 1];
          }
        }
      }
      FilterAll("." + f, NotComma);
      assert a + ("." + f) == a + "." + f;
      ParseDecimal(a, f);
    } else {
      ParseWhole(a);
      NoFraction(a);
    }
  }

  /** A keyword spelt in any ASCII case is found at the start of the text. */
  lemma KeywordAtStart(kw: string, tail: string)
    ensures StartsWithWord(kw + tail, Lower(kw))
    ensures MatchWords(kw + tail, [Lower(kw)]) == Some(|kw|)
  {
    assert (kw + tail)[..|kw|] == kw;
  }

  /** "Revenue: $1,234.56 million", in any ASCII case, with any run of
      colons and whitespace after the keyword, with or without the `$`, with
      or without commas and decimals, and anything after the figure that does
      not continue it (a unit word is ignored): the revenue read is the
      figure. When the extraction succeeds (no net-income capture without
      digits), the metric is exactly that number. */
  lemma RevenueStated(kw: string, sep: string, whole: string, frac: Option<string>, rest: string)
    requires Lower(kw) == "revenue"
    requires LeadInText(sep) && WellWritten(whole, frac) && Ends(frac, rest)
    ensures Chosen(kw + sep + Written(whole, frac) + rest, RevenuePatterns) == Some(Written(whole, frac))
    ensures var r := ExtractMetrics(kw + sep + Written(whole, frac) + rest);
      r.Extracted? ==> Revenue in r.metrics && r.metrics[Revenue] == WrittenValue(whole, frac)
  {
    var c := Written(whole, frac);
    var text := kw + sep + c + rest;
    assert text == kw + (sep + c + rest);
    KeywordAtStart(kw, sep + c + rest);
    StatedAmount(kw, sep, whole, frac, rest);
    assert |kw| == 7;
    assert CaptureAt(text, 0, RevenuePattern) == Some(c) by {
      assert text[0..] == text;
    }
    assert MatchesAt(text, RevenuePattern, 0);
    assert Search(text, RevenuePattern) == Some((0, c));
    FirstOfTwo(text, RevenuePattern, SalesPattern);
    WrittenParses(whole, frac);
  }

  /** "Revenue: $1,000,000" is read as revenue 1000000. */
  lemma MillionRevenue()
    ensures Chosen("Revenue: $1,000,000", RevenuePatterns) == Some("1,000,000")
    ensures WellWritten("1,000,000", None) && WrittenValue("1,000,000", None) == 1000000.0
  {
    MillionChosen();
    MillionValue();
  }

  lemma MillionValue()
    ensures WellWritten("1,000,000", None) && WrittenValue("1,000,000", None) == 1000000.0
  {
    MillionWellWritten();
    MillionDigits();
    assert WrittenValue("1,000,000", None) == DecimalValue("1000000", "");
    NoFraction("1000000");
    Million();
  }

  lemma MillionWellWritten()
    ensures WellWritten("1,000,000", None)
  {
    assert IsDigit("1,000,000"[0]);
  }

  lemma MillionDigits()
    ensures Filter("1,000,000", NotComma) == "1000000"
  {
    MillionGroups();
    GroupedDigits("1", "000", "000");
  }

  lemma MillionGroups()
    ensures "1,000,000" == "1" + ("," + "000") + ("," + "000")
    ensures "1" + "000" + "000" == "1000000"
  {
  }

  /** Commas between digit groups are dropped. */
  lemma GroupedDigits(a: string, b: string, c: string)
    requires AllDigits(a) && AllDigits(b) && AllDigits(c)
    ensures Filter(a + ("," + b) + ("," + c), NotComma) == a + b + c
  {
    FilterConcat(a + ("," + b), "," + c, NotComma);
    FilterConcat(a, "," + b, NotComma);
    FilterAll(a, NotComma);
    CommaGroup(b);
    CommaGroup(c);
  }

  /** A comma followed by digits leaves the digits. */
  lemma CommaGroup(d: string)
    requires AllDigits(d)
    ensures Filter("," + d, NotComma) == d
  {
    assert ("," + d)[1..] == d;
    FilterAll(d, NotComma);
  }

  lemma MillionChosen()
    ensures Chosen("Revenue: $1,000,000", RevenuePatterns) == Some("1,000,000")
  {
    assert Lower("Revenue") == "revenue";
    assert LeadInText(": $") by {
      assert ": $"[..2] == ": ";
    }
    MillionWellWritten();
    MillionText();
    RevenueStated("Revenue", ": $", "1,000,000", None, "");
  }

  lemma MillionText()
    ensures "Revenue" + ": $" + Written("1,000,000", None) + "" == "Revenue: $1,000,000"
  {
    assert "Revenue" + ": $" == "Revenue: $";
    assert "Revenue: $" + "1,000,000" == "Revenue: $1,000,000";
  }

  lemma Million()
    ensures DigitsValue("1000000") == 1000000
  {
    assert "1000000"[..6] == "100000";
    assert "100000"[..5] == "10000";
    assert "10000"[..4] == "1000";
    assert "1000"[..3] == "100";
    assert "100"[..2] == "10";
    assert "10"[..1] == "1";
    assert "1"[..0] == "";
  }

  /** Two keywords separated by whitespace are found at the start of the text. */
  lemma TwoWordsAtStart(kw1: string, gap: string, kw2: string, tail: string)
    requires kw1 != [] && kw2 != [] && !IsSpace(kw2[0])
    requires gap != [] && AllSpace(gap)
    ensures MatchWords(kw1 + gap + kw2 + tail, [Lower(kw1), Lower(kw2)]) == Some(|kw1| + |gap| + |kw2|)
  {
    var t := kw1 + gap + kw2 + tail;
    var words := [Lower(kw1), Lower(kw2)];
    assert t[..|kw1|] == kw1;
    var rest := t[|kw1|..];
    assert rest == gap + (kw2 + tail);
    RunOfSpaces(gap, kw2 + tail);
    assert rest[|gap|..] == kw2 + tail;
    assert words[1..] == [Lower(kw2)];
    KeywordAtStart(kw2, tail);
  }

  /** `SpaceRun` stops at the first non-whitespace character. */
  lemma {:induction false} RunOfSpaces(a: string, b: string)
    requires AllSpace(a)
    requires b == [] || !IsSpace(b[0])
    ensures SpaceRun(a + b) == |a|
  {
    if a == [] {
      assert a + b == b;
    } else {
      assert (a + b)[1..] == a[1..] + b;
      RunOfSpaces(a[1..], b);
    }
  }

  /** "Net income: $1,234.5", with any whitespace between the words, in any
      ASCII case, with or without the `$`, commas and decimals: the net
      income read is the figure. */
  lemma NetIncomeStated(kw1: string, gap: string, kw2: string, sep: string, whole: string, frac: Option<string>, rest: string)
    requires Lower(kw1) == "net" && Lower(kw2) == "income"
    requires gap != [] && AllSpace(gap)
    requires LeadInText(sep) && WellWritten(whole, frac) && Ends(frac, rest)
    ensures Chosen(kw1 + gap + kw2 + sep + Written(whole, frac) + rest, ProfitPatterns) == Some(Written(whole, frac))
    ensures var r := ExtractMetrics(kw1 + gap + kw2 + sep + Written(whole, frac) + rest);
      r.Extracted? ==> NetIncome in r.metrics && r.metrics[NetIncome] == WrittenValue(whole, frac)
  {
    var pre := kw1 + gap + kw2;
    var c := Written(whole, frac);
    var text := pre + sep + c + rest;
    assert !IsSpace(kw2[0]) by {
      assert ToLower(kw2[0]) == Lower(kw2)[0] == 'i';
    }
    assert text == kw1 + gap + kw2 + (sep + c + rest);
    TwoWordsAtStart(kw1, gap, kw2, sep + c + rest);
    StatedAmount(pre, sep, whole, frac, rest);
    assert CaptureAt(text, 0, NetIncomePattern) == Some(c) by {
      assert text[0..] == text;
    }
    assert MatchesAt(text, NetIncomePattern, 0);
    assert Search(text, NetIncomePattern) == Some((0, c));
    FirstOfTwo(text, NetIncomePattern, NetProfitPattern);
    WrittenParses(whole, frac);
  }
}
