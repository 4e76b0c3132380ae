/**
 * Turning one raw line of text into a task (TaskStore.parseTaskLine and its
 * helpers): trim, strip one item symbol, find the `: H:MM:SS` suffix the
 * way the anchored, lazy regular expression does, and strip a `~~name~~`
 * completion marker. The regular expression is written out by hand.
 */
module LineParser {
  import opened Wrappers
  import opened Text
  import opened TaskModel

  /** The item symbols recognised at the start of a line, in the order they are tried. */
  const SupportedSymbols: seq<string> := ["• ", "- ", "* ", "→ ", "✓ ", "☐ ", "•\t"]

  predicate StartsWith(s: string, p: string) {
    |p| <= |s| && s[..|p|] == p
  }

  /** Every supported symbol is a bullet character followed by a space or a tab. */
  lemma SymbolShape(k: nat)
    requires k < |SupportedSymbols|
    ensures var sym := SupportedSymbols[k];
      |sym| == 2 && !IsTrimSpace(sym[0]) && sym[0] != ':' && sym[0] != '~' && (sym[1] == ' ' || sym[1] == '\t')
  {
  }

  /** The first symbol, in list order from position `from`, that `s` starts with. */
  function FirstSymbolFrom(s: string, from: nat): (r: Option<nat>)
    requires from <= |SupportedSymbols|
    ensures r.Some? ==> from <= r.value < |SupportedSymbols| && StartsWith(s, SupportedSymbols[r.value])
    ensures forall j :: from <= j < (if r.Some? then r.value else |SupportedSymbols|) ==> !StartsWith(s, SupportedSymbols[j])
    decreases |SupportedSymbols| - from
  {
    if from == |SupportedSymbols| then None
    else if StartsWith(s, SupportedSymbols[from]) then Some(from)
    else FirstSymbolFrom(s, from + 1)
  }

  function FirstSymbol(s: string): Option<nat> {
    FirstSymbolFrom(s, 0)
  }

  /** The symbol found at the start of a line, and the text after it. */
  datatype SymbolSplit = SymbolSplit(symbol: Option<string>, cleanText: string)

  /** Every supported symbol has two characters, so a text starts with at most one of them. */
  lemma OnlySymbol(s: string, a: nat)
    requires a < |SupportedSymbols| && StartsWith(s, SupportedSymbols[a])
    ensures forall b :: 0 <= b < |SupportedSymbols| && StartsWith(s, SupportedSymbols[b]) ==> SupportedSymbols[b] == SupportedSymbols[a]
  {
    SymbolShape(a);
    forall b | 0 <= b < |SupportedSymbols| && StartsWith(s, SupportedSymbols[b])
      ensures SupportedSymbols[b] == SupportedSymbols[a]
    {
      SymbolShape(b);
    }
  }

  /**
   * `parseItemSymbolAndText(from:)`: trim; an empty line has no symbol and no
   * text; otherwise the first supported symbol the line starts with is cut off
   * and what follows is trimmed again. A symbol is found exactly when the
   * trimmed line starts with one; it is then the only one it starts with.
   */
  function ParseItemSymbolAndText(line: string): (r: SymbolSplit)
    ensures r.symbol.Some? ==> r.symbol.value in SupportedSymbols && StartsWith(Trim(line), r.symbol.value)
    ensures r.symbol.None? <==> Trim(line) == [] || forall k :: 0 <= k < |SupportedSymbols| ==> !StartsWith(Trim(line), SupportedSymbols[k])
    ensures r.symbol.Some? ==>
      forall k :: 0 <= k < |SupportedSymbols| && StartsWith(Trim(line), SupportedSymbols[k]) ==> SupportedSymbols[k] == r.symbol.value
    ensures r.symbol.Some? ==> r.cleanText == Trim(Trim(line)[|r.symbol.value|..])
    ensures r.symbol.None? ==> r.cleanText == Trim(line)
    ensures Trim(r.cleanText) == r.cleanText
  {
    var trimmed := Trim(line);
    TrimIdempotent(line);
    if trimmed == [] then SymbolSplit(None, [])
    else match FirstSymbol(trimmed)
      case Some(k) =>
        var rest := trimmed[|SupportedSymbols[k]|..];
        TrimIdempotent(rest);
        OnlySymbol(trimmed, k);
        SymbolSplit(Some(SupportedSymbols[k]), Trim(rest))
      case None => SymbolSplit(None, trimmed)
  }

  /** `detectItemSymbol(from:)` */
  function DetectItemSymbol(line: string): Option<string> {
    ParseItemSymbolAndText(line).symbol
  }

  // ---------------------------------------------------------------------------
  // The time suffix: `^(.*?):\s*(\d{1,2})(?::(\d{2}))?(?::(\d{2}))?\s*$`
  // ---------------------------------------------------------------------------

  /**
   * What the part after the name's colon matched: the `\s*` before the
   * digits, the three numeric groups (the last two optional) and the `\s*`
   * at the end.
   */
  datatype TimeGroups = TimeGroups(lead: string, first: string, second: Option<string>, third: Option<string>, trail: string)

  predicate IsTwoDigits(s: string) {
    |s| == 2 && AllDigits(s)
  }

  /**
   * A match of `\s*(\d{1,2})(?::(\d{2}))?(?::(\d{2}))?\s*`. Optional groups are
   * filled from the left: when the third group takes part so does the second.
   */
  predicate WellFormed(g: TimeGroups) {
    && AllRegexSpace(g.lead)
    && 1 <= |g.first| <= 2 && AllDigits(g.first)
    && (g.second.Some? ==> IsTwoDigits(g.second.value))
    && (g.third.Some? ==> g.second.Some? && IsTwoDigits(g.third.value))
    && AllRegexSpace(g.trail)
  }

  function ColonGroup(o: Option<string>): string {
    if o.Some? then ":" + o.value else ""
  }

  /** The text a match covers. */
  function Render(g: TimeGroups): (r: string)
    ensures |r| == |g.lead| + |g.first| + |ColonGroup(g.second)| + |ColonGroup(g.third)| + |g.trail|
  {
    Concat5(g.lead, g.first, ColonGroup(g.second), ColonGroup(g.third), g.trail);
    Concat([g.lead, g.first, ColonGroup(g.second), ColonGroup(g.third), g.trail])
  }

  /** The parts, one after another. */
  function Concat(parts: seq<string>): string {
    if parts == [] then [] else parts[0] + Concat(parts[1..])
  }

  lemma Concat5(a: string, b: string, c: string, d: string, e: string)
    ensures Concat([a, b, c, d, e]) == a + b + c + d + e
  {
    var p := [a, b, c, d, e];
    assert p[1..][1..][1..][1..][1..] == [];
    assert Concat(p[1..][1..][1..][1..]) == e;
    assert Concat(p[1..][1..][1..]) == d + e;
    assert Concat(p[1..][1..]) == c + d + e;
    assert Concat(p[1..]) == b + c + d + e;
  }

  /** End of the run of `\s` characters starting at `i`. */
  function SpanRegexSpace(t: string, i: nat): (j: nat)
    requires i <= |t|
    ensures i <= j <= |t|
    decreases |t| - i
  {
    if i < |t| && IsRegexSpace(t[i]) then SpanRegexSpace(t, i + 1) else i
  }

  /** `SpanRegexSpace` stops at the first character that is not `\s`. */
  lemma {:induction false} SpanRegexSpaceRun(t: string, i: nat)
    requires i <= |t|
    ensures var j := SpanRegexSpace(t, i);
      (forall x :: i <= x < j ==> IsRegexSpace(t[x])) && (j < |t| ==> !IsRegexSpace(t[j]))
    decreases |t| - i
  {
    if i < |t| && IsRegexSpace(t[i]) {
      SpanRegexSpaceRun(t, i + 1);
    }
  }

  /** End of the run of digits starting at `i`. */
  function SpanDigits(t: string, i: nat): (j: nat)
    requires i <= |t|
    ensures i <= j <= |t|
    decreases |t| - i
  {
    if i < |t| && IsDigit(t[i]) then SpanDigits(t, i + 1) else i
  }

  /** `SpanDigits` stops at the first character that is not a digit. */
  lemma {:induction false} SpanDigitsRun(t: string, i: nat)
    requires i <= |t|
    ensures var j := SpanDigits(t, i);
      (forall x :: i <= x < j ==> IsDigit(t[x])) && (j < |t| ==> !IsDigit(t[j]))
    decreases |t| - i
  {
    if i < |t| && IsDigit(t[i]) {
      SpanDigitsRun(t, i + 1);
    }
  }

  /** `(?::(\d{2}))?` tried at position `i`. */
  function ColonGroupAt(t: string, i: nat): (r: Option<string>)
    requires i <= |t|
    ensures r.Some? ==> i + 3 <= |t| && t[i] == ':' && IsDigit(t[i + 1]) && IsDigit(t[i + 2]) && r.value == t[i + 1..i + 3]
  {
    if i + 3 <= |t| && t[i] == ':' && IsDigit(t[i + 1]) && IsDigit(t[i + 2]) then Some(t[i + 1..i + 3]) else None
  }

  /**
   * Matching `\s*(\d{1,2})(?::(\d{2}))?(?::(\d{2}))?\s*$` against all of `t`.
   * The regular expression's backtracking cannot do better than this greedy
   * reading: a digit run of three or more fails whatever `\d{1,2}` takes, and a
   * `:dd` group that is skipped leaves a colon that neither a later group
   * nor `\s*$` can consume other than as that same group.
   */
  function MatchTail(t: string): (r: Option<TimeGroups>)
    ensures r.Some? ==> AllRegexSpace(r.value.lead) && AllDigits(r.value.first)
                        && 1 <= |r.value.first| <= 2 && AllRegexSpace(r.value.trail)
  {
    var i := SpanRegexSpace(t, 0);
    var j := SpanDigits(t, i);
    var second := ColonGroupAt(t, j);
    var k := GroupEnd(second, j);
    var third := ColonGroupAt(t, k);
    var l := GroupEnd(third, k);
    SpanRegexSpaceRun(t, 0);
    SpanDigitsRun(t, i);
    SpanRegexSpaceRun(t, l);
    if 1 <= j - i <= 2 && SpanRegexSpace(t, l) == |t| then Some(TimeGroups(t[..i], t[i..j], second, third, t[l..]))
    else None
  }

  /** Where the text after an optional `:dd` group starts. */
  function GroupEnd(o: Option<string>, i: nat): nat {
    if o.Some? then i + 3 else i
  }

  /** A match fills the groups as the pattern allows. */
  lemma MatchTailWellFormed(t: string)
    ensures MatchTail(t).Some? ==> WellFormed(MatchTail(t).value)
  {
    if MatchTail(t).Some? {
      var i := SpanRegexSpace(t, 0);
      var j := SpanDigits(t, i);
      var second := ColonGroupAt(t, j);
      var k := GroupEnd(second, j);
      var third := ColonGroupAt(t, k);
      var l := GroupEnd(third, k);
      SpanRegexSpaceRun(t, 0);
      SpanDigitsRun(t, i);
      SpanRegexSpaceRun(t, l);
      GroupsWellFormed(t, i, j, l, second, third);
    }
  }

  /** Groups cut out of `t` at a space run, a digit run, two `:dd` attempts and a final space run are well formed. */
  lemma GroupsWellFormed(t: string, i: nat, j: nat, l: nat, second: Option<string>, third: Option<string>)
    requires i <= j <= l <= |t| && 1 <= j - i <= 2
    requires forall x :: 0 <= x < i ==> IsRegexSpace(t[x])
    requires forall x :: i <= x < j ==> IsDigit(t[x])
    requires second == ColonGroupAt(t, j) && third == ColonGroupAt(t, GroupEnd(second, j))
    requires l == GroupEnd(third, GroupEnd(second, j))
    requires forall x :: l <= x < |t| ==> IsRegexSpace(t[x])
    ensures WellFormed(TimeGroups(t[..i], t[i..j], second, third, t[l..]))
  {
    var k := GroupEnd(second, j);
    SpacesSlice(t, 0, i);
    DigitsSlice(t, i, j);
    if second.Some? {
      DigitsSlice(t, j + 1, j + 3);
    }
    if third.Some? {
      DigitsSlice(t, k + 1, k + 3);
    }
    SpacesSlice(t, l, |t|);
  }

  lemma SpacesSlice(t: string, i: nat, j: nat)
    requires i <= j <= |t| && forall x :: i <= x < j ==> IsRegexSpace(t[x])
    ensures AllRegexSpace(t[i..j])
  {
    assert forall x :: 0 <= x < j - i ==> t[i..j][x] == t[i + x];
  }

  lemma DigitsSlice(t: string, i: nat, j: nat)
    requires i <= j <= |t| && forall x :: i <= x < j ==> IsDigit(t[x])
    ensures AllDigits(t[i..j])
  {
    assert forall x :: 0 <= x < j - i ==> t[i..j][x] == t[i + x];
  }

  /** The run of `\s` starting at `i` ends at the first non-space. */
  lemma SpanRegexSpaceAt(t: string, i: nat, j: nat)
    requires i <= j <= |t|
    requires forall x :: i <= x < j ==> IsRegexSpace(t[x])
    requires j == |t| || !IsRegexSpace(t[j])
    ensures SpanRegexSpace(t, i) == j
    decreases j - i
  {
    if i < j {
      SpanRegexSpaceAt(t, i + 1, j);
    }
  }

  /** The run of digits starting at `i` ends at the first non-digit. */
  lemma SpanDigitsAt(t: string, i: nat, j: nat)
    requires i <= j <= |t|
    requires forall x :: i <= x < j ==> IsDigit(t[x])
    requires j == |t| || !IsDigit(t[j])
    ensures SpanDigits(t, i) == j
    decreases j - i
  {
    if i < j {
      SpanDigitsAt(t, i + 1, j);
    }
  }

  /** An optional `:dd` group spells out the text it consumed. */
  lemma ColonGroupText(t: string, j: nat)
    requires j <= |t|
    ensures GroupEnd(ColonGroupAt(t, j), j) <= |t|
    ensures ColonGroup(ColonGroupAt(t, j)) == t[j..GroupEnd(ColonGroupAt(t, j), j)]
  {
  }

  lemma SlicesConcat(t: string, i: nat, j: nat, k: nat, l: nat)
    requires i <= j <= k <= l <= |t|
    ensures t == t[..i] + t[i..j] + t[j..k] + t[k..l] + t[l..]
  {
    assert t[..i] + t[i..j] == t[..j];
    assert t[..j] + t[j..k] == t[..k];
    assert t[..k] + t[k..l] == t[..l];
  }

  /** What `MatchTail` reports covers its whole input. */
  lemma MatchTailSound(t: string)
    ensures MatchTail(t).Some? ==> Render(MatchTail(t).value) == t
  {
    if MatchTail(t).Some? {
      var g := MatchTail(t).value;
      var i := SpanRegexSpace(t, 0);
      var j := SpanDigits(t, i);
      ColonGroupText(t, j);
      var k := GroupEnd(g.second, j);
      ColonGroupText(t, k);
      var l := GroupEnd(g.third, k);
      SlicesConcat(t, i, j, k, l);
      RenderUnfold(g);
    }
  }

  /** Where each part of a rendered match sits. */
  lemma RenderUnfold(g: TimeGroups)
    ensures Render(g) == g.lead + g.first + ColonGroup(g.second) + ColonGroup(g.third) + g.trail
  {
    Concat5(g.lead, g.first, ColonGroup(g.second), ColonGroup(g.third), g.trail);
  }

  lemma RenderParts(g: TimeGroups)
    ensures var t := Render(g);
      var i := |g.lead|; var j := i + |g.first|;
      var k := j + |ColonGroup(g.second)|; var l := k + |ColonGroup(g.third)|;
      && l + |g.trail| == |t|
      && t[..i] == g.lead && t[i..j] == g.first && t[j..k] == ColonGroup(g.second)
      && t[k..l] == ColonGroup(g.third) && t[l..] == g.trail
  {
    RenderUnfold(g);
  }

  /** A `:dd` group, or no colon at all, is read back as written. */
  lemma ColonGroupAtRendered(t: string, j: nat, o: Option<string>)
    requires j <= |t| && (o.Some? ==> IsTwoDigits(o.value))
    requires j + |ColonGroup(o)| <= |t| && t[j..j + |ColonGroup(o)|] == ColonGroup(o)
    requires o.None? ==> j == |t| || t[j] != ':'
    ensures ColonGroupAt(t, j) == o
    ensures GroupEnd(o, j) == j + |ColonGroup(o)|
  {
    if o.Some? {
      assert t[j] == t[j..j + 3][0];
      assert t[j + 1..j + 3] == t[j..j + 3][1..];
    }
  }

  /** Reading a rendered match: the leading `\s*` stops at the first digit. */
  lemma RenderedLead(g: TimeGroups)
    requires WellFormed(g)
    ensures SpanRegexSpace(Render(g), 0) == |g.lead|
  {
    var t := Render(g);
    RenderParts(g);
    var i := |g.lead|;
    assert forall x :: 0 <= x < i ==> t[x] == g.lead[x];
    assert t[i] == g.first[0];
    SpanRegexSpaceAt(t, 0, i);
  }

  /** Reading a rendered match: the digit run is exactly the first group. */
  lemma RenderedFirst(g: TimeGroups)
    requires WellFormed(g)
    ensures SpanDigits(Render(g), |g.lead|) == |g.lead| + |g.first|
  {
    var t := Render(g);
    RenderParts(g);
    var i := |g.lead|;
    var j := i + |g.first|;
    assert forall x :: i <= x < j ==> t[x] == g.first[x - i];
    assert j < |t| ==> t[j] == (if g.second.Some? then ':' else g.trail[0]);
    SpanDigitsAt(t, i, j);
  }

  /** Reading a rendered match: both optional groups are read back as written. */
  lemma RenderedGroups(g: TimeGroups)
    requires WellFormed(g)
    ensures var j := |g.lead| + |g.first|;
      && ColonGroupAt(Render(g), j) == g.second
      && GroupEnd(g.second, j) == j + |ColonGroup(g.second)|
      && ColonGroupAt(Render(g), GroupEnd(g.second, j)) == g.third
      && GroupEnd(g.third, GroupEnd(g.second, j)) == |Render(g)| - |g.trail|
  {
    var t := Render(g);
    var j := |g.lead| + |g.first|;
    var k := j + |ColonGroup(g.second)|;
    var l := k + |ColonGroup(g.third)|;
    assert l + |g.trail| == |t| && t[j..k] == ColonGroup(g.second) && t[k..l] == ColonGroup(g.third)
      && t[l..] == g.trail by {
      RenderParts(g);
    }
    assert l < |t| ==> t[l] == g.trail[0] && t[l] != ':';
    ColonGroupAtRendered(t, j, g.second);
    ColonGroupAtRendered(t, k, g.third);
  }

  /** Reading a rendered match: the trailing `\s*` runs to the end. */
  lemma RenderedTrail(g: TimeGroups)
    requires WellFormed(g)
    ensures SpanRegexSpace(Render(g), |Render(g)| - |g.trail|) == |Render(g)|
  {
    var t := Render(g);
    RenderParts(g);
    var l := |t| - |g.trail|;
    assert forall x :: l <= x < |t| ==> t[x] == g.trail[x - l];
    SpanRegexSpaceAt(t, l, |t|);
  }

  /**
   * Every way of filling the pattern's groups is found again: the time
   * pattern reads its own rendering back, so a match is unique.
   */
  lemma MatchTailComplete(g: TimeGroups)
    requires WellFormed(g)
    ensures MatchTail(Render(g)) == Some(g)
  {
    var t := Render(g);
    RenderedLead(g);
    RenderedFirst(g);
    RenderedGroups(g);
    RenderedTrail(g);
    var i := |g.lead|;
    var j := i + |g.first|;
    var l := |t| - |g.trail|;
    MatchTailOfParts(t, i, j, l, g.second, g.third);
    RenderOuterSlices(g);
  }

  /** The lead, the first group and the trail of a rendered match sit where their lengths say. */
  lemma RenderOuterSlices(g: TimeGroups)
    ensures var t := Render(g); var i := |g.lead|;
      && t[..i] == g.lead && t[i..i + |g.first|] == g.first && t[|t| - |g.trail|..] == g.trail
  {
    RenderParts(g);
  }

  /** `MatchTail` assembles the groups it finds at the positions it finds them. */
  lemma MatchTailOfParts(t: string, i: nat, j: nat, l: nat, second: Option<string>, third: Option<string>)
    requires i <= j <= l <= |t| && 1 <= j - i <= 2
    requires SpanRegexSpace(t, 0) == i && SpanDigits(t, i) == j
    requires ColonGroupAt(t, j) == second && ColonGroupAt(t, GroupEnd(second, j)) == third
    requires GroupEnd(third, GroupEnd(second, j)) == l && SpanRegexSpace(t, l) == |t|
    ensures MatchTail(t) == Some(TimeGroups(t[..i], t[i..j], second, third, t[l..]))
  {
  }

  /** No line terminator among `s[from..to]`. */
  predicate NoTerminatorBetween(s: string, from: nat, to: nat)
    requires from <= to <= |s|
  {
    forall i :: from <= i < to ==> !IsLineTerminator(s[i])
  }

  /** Where the name ends (the colon) and what the rest of the line matched. */
  datatype TimeMatch = TimeMatch(colon: nat, groups: TimeGroups)

  /**
   * The lazy `^(.*?):` from position `k`: the first colon whose remainder
   * `tail` accepts, provided no line terminator (which `.` cannot match)
   * stands before it. `FirstColonFound` and `FirstColonIsFirst` state what
   * it finds, for any remainder matcher.
   */
  function FirstColonMatch(content: string, k: nat, tail: string -> Option<TimeGroups>): (r: Option<TimeMatch>)
    requires k <= |content|
    ensures r.Some? ==> k <= r.value.colon < |content|
    decreases |content| - k
  {
    if k == |content| then None
    else if content[k] == ':' && tail(content[k + 1..]).Some? then Some(TimeMatch(k, tail(content[k + 1..]).value))
    else if IsLineTerminator(content[k]) then None
    else FirstColonMatch(content, k + 1, tail)
  }

  /** The colon that ends the name and the groups, when the line carries a time suffix. */
  function FindTimeMatch(content: string): (r: Option<TimeMatch>)
    ensures r.Some? ==>
      && r.value.colon < |content| && content[r.value.colon] == ':'
      && MatchTail(content[r.value.colon + 1..]) == Some(r.value.groups)
      && NoTerminatorBetween(content, 0, r.value.colon)
  {
    FirstColonFound(content, 0, MatchTail);
    FirstColonMatch(content, 0, MatchTail)
  }

  /**
   * What the lazy `^(.*?):` finds is a colon with no line terminator before
   * it, whose remainder matches with the groups reported.
   */
  lemma {:induction false} FirstColonFound(content: string, k: nat, tail: string -> Option<TimeGroups>)
    requires k <= |content|
    ensures var r := FirstColonMatch(content, k, tail);
      r.Some? ==>
        && content[r.value.colon] == ':'
        && tail(content[r.value.colon + 1..]) == Some(r.value.groups)
        && NoTerminatorBetween(content, k, r.value.colon)
    decreases |content| - k
  {
    if k < |content| && !(content[k] == ':' && tail(content[k + 1..]).Some?) && !IsLineTerminator(content[k]) {
      FirstColonFound(content, k + 1, tail);
    }
  }

  /**
   * No colon before the one found (or, when none is found, before the first
   * line terminator) has a matching remainder.
   */
  lemma {:induction false} FirstColonIsFirst(content: string, k: nat, tail: string -> Option<TimeGroups>)
    requires k <= |content|
    ensures var r := FirstColonMatch(content, k, tail);
      forall j :: (k <= j < (if r.Some? then r.value.colon else |content|) && content[j] == ':'
        && NoTerminatorBetween(content, k, j)) ==> tail(content[j + 1..]).None?
    decreases |content| - k
  {
    if k < |content| {
      if content[k] == ':' && tail(content[k + 1..]).Some? {
      } else if IsLineTerminator(content[k]) {
        forall j | k < j <= |content|
          ensures !NoTerminatorBetween(content, k, j)
        {
          assert IsLineTerminator(content[k]);
        }
      } else {
        FirstColonIsFirst(content, k + 1, tail);
        forall j | k < j <= |content| && NoTerminatorBetween(content, k, j)
          ensures NoTerminatorBetween(content, k + 1, j)
        {
        }
      }
    }
  }

  /**
   * The converse: a colon whose remainder matches, with no line terminator
   * and no other such colon before it, is the one found.
   */
  lemma FindTimeMatchAt(content: string, colon: nat, g: TimeGroups)
    requires colon < |content| && content[colon] == ':'
    requires MatchTail(content[colon + 1..]) == Some(g)
    requires NoTerminatorBetween(content, 0, colon)
    requires forall j :: 0 <= j < colon && content[j] == ':' ==> MatchTail(content[j + 1..]).None?
    ensures FindTimeMatch(content) == Some(TimeMatch(colon, g))
  {
    FirstColonFound(content, 0, MatchTail);
    FirstColonIsFirst(content, 0, MatchTail);
  }

  /** `Int(s) ?? 0`: the value of a string of decimal digits, and 0 for anything else. */
  function IntOrZero(s: string): nat {
    if s != [] && AllDigits(s) then DigitsValue(s) else 0
  }

  /**
   * The seconds a match stands for, as the source reads its groups: three
   * groups are hours, minutes and seconds; two are minutes and seconds; one is
   * seconds.
   */
  function GroupSeconds(g: TimeGroups): (r: nat)
    ensures g.third.Some? && IntOrZero(g.third.value) < 60 ==> r % 60 == IntOrZero(g.third.value)
    ensures g.third.None? && g.second.Some? && IntOrZero(g.second.value) < 60 ==> r % 60 == IntOrZero(g.second.value)
    ensures g.third.None? && g.second.None? ==> r == IntOrZero(g.first)
  {
    var first := IntOrZero(g.first);
    if g.third.Some? then
      first * 3600 + (if g.second.Some? then IntOrZero(g.second.value) else 0) * 60 + IntOrZero(g.third.value)
    else if g.second.Some? then first * 60 + IntOrZero(g.second.value)
    else first
  }

  // ---------------------------------------------------------------------------
  // Completion marker and the whole line
  // ---------------------------------------------------------------------------

  predicate HasCompletionMarkers(s: string) {
    |s| >= 2 && s[..2] == "~~" && s[|s| - 2..] == "~~"
  }

  datatype Marked = Marked(name: string, isCompleted: bool)

  /** `hasPrefix("~~") && hasSuffix("~~")`, then `dropFirst(2).dropLast(2)`. */
  function StripCompletionMarker(s: string): (r: Marked)
    ensures r.isCompleted <==> HasCompletionMarkers(s)
    ensures r.isCompleted && |s| >= 4 ==> s == "~~" + r.name + "~~"
    ensures r.isCompleted && |s| < 4 ==> r.name == []
    ensures !r.isCompleted ==> r.name == s
  {
    if HasCompletionMarkers(s) then
      var name := if |s| >= 4 then s[2..|s| - 2] else [];
      assert |s| >= 4 ==> s == s[..2] + s[2..|s| - 2] + s[|s| - 2..];
      Marked(name, true)
    else Marked(s, false)
  }

  /** `createTask(from:elapsed:isCompleted:)`: the name is cleaned of one more symbol. */
  function CreateTask(id: nat, rawText: string, elapsed: nat, isCompleted: bool): (t: Task)
    ensures Trim(t.name) == t.name
  {
    Task(id, ParseItemSymbolAndText(rawText).cleanText, elapsed, isCompleted)
  }

  /**
   * `parseTaskLine(_:)`. `id` stands for the UUID the new task draws. A blank
   * line gives no task; every other line gives one, whose name is trimmed.
   */
  function ParseTaskLine(rawLine: string, id: nat): (r: Option<Task>)
    ensures r.None? <==> Trim(rawLine) == []
    ensures r.Some? ==> r.value.id == id && Trim(r.value.name) == r.value.name
  {
    var trimmed := Trim(rawLine);
    if trimmed == [] then None
    else
      Some(ParseContent(ParseItemSymbolAndText(trimmed).cleanText, id))
  }

  /**
   * The symbol-free text of a line: with a time suffix, the name before its
   * colon and the suffix's seconds; without one, the whole text and 0.
   */
  function ParseContent(content: string, id: nat): (t: Task)
    ensures t.id == id && Trim(t.name) == t.name
  {
    match FindTimeMatch(content)
    case Some(m) =>
      var marked := StripCompletionMarker(content[..m.colon]);
      CreateTask(id, marked.name, GroupSeconds(m.groups), marked.isCompleted)
    case None =>
      var marked := StripCompletionMarker(content);
      CreateTask(id, marked.name, 0, marked.isCompleted)
  }

  /**
   * `compactMap`: `parse` applied to each line in order, the `None`s
   * dropped, the k-th kept result drawing id `firstId + k`.
   */
  function CompactMap(lines: seq<string>, firstId: nat, parse: (string, nat) -> Option<Task>): (r: seq<Task>)
    ensures |r| <= |lines|
  {
    if lines == [] then []
    else
      var head := parse(lines[0], firstId);
      if head.Some? then [head.value] + CompactMap(lines[1..], firstId + 1, parse)
      else CompactMap(lines[1..], firstId, parse)
  }

  /** `lines.compactMap { parseTaskLine($0) }`: one task per non-blank line. */
  function ParseLines(lines: seq<string>, firstId: nat): seq<Task> {
    CompactMap(lines, firstId, ParseTaskLine)
  }

  /** The lines `keep` accepts, in order. */
  function Kept(lines: seq<string>, keep: string -> bool): (r: seq<string>)
    ensures |r| <= |lines|
  {
    if lines == [] then []
    else
      var rest := Kept(lines[1..], keep);
      if keep(lines[0]) then [lines[0]] + rest else rest
  }

  /** The lines that are not blank once trimmed, in order. */
  function NonBlank(lines: seq<string>): seq<string> {
    Kept(lines, line => Trim(line) != [])
  }

  /** What `CompactMap` keeps when `parse` refuses exactly the lines `keep` refuses. */
  lemma {:induction false} CompactMapOfKept(lines: seq<string>, firstId: nat, parse: (string, nat) -> Option<Task>, keep: string -> bool)
    requires forall line, id :: parse(line, id).Some? <==> keep(line)
    ensures var r := CompactMap(lines, firstId, parse); var kept := Kept(lines, keep);
      |r| == |kept| && forall i :: 0 <= i < |r| ==> Some(r[i]) == parse(kept[i], firstId + i)
  {
    if lines != [] {
      var head := parse(lines[0], firstId);
      if head.None? {
        CompactMapOfKept(lines[1..], firstId, parse, keep);
      } else {
        CompactMapOfKept(lines[1..], firstId + 1, parse, keep);
        var r, kept := CompactMap(lines, firstId, parse), Kept(lines, keep);
        var r', kept' := CompactMap(lines[1..], firstId + 1, parse), Kept(lines[1..], keep);
        assert r == [head.value] + r';
        assert kept == [lines[0]] + kept';
        forall i | 0 <= i < |r|
          ensures Some(r[i]) == parse(kept[i], firstId + i)
        {
          if i > 0 {
            assert r[i] == r'[i - 1] && kept[i] == kept'[i - 1];
          }
        }
      }
    }
  }

  /**
   * The parsed lines are the non-blank ones, in order: the k-th task is the
   * parse of the k-th non-blank line, and its id is `firstId + k`.
   */
  lemma ParseLinesOfNonBlank(lines: seq<string>, firstId: nat)
    ensures var r := ParseLines(lines, firstId); var nb := NonBlank(lines);
      && |r| == |nb|
      && (forall i :: 0 <= i < |r| ==> Some(r[i]) == ParseTaskLine(nb[i], firstId + i))
      && (forall i :: 0 <= i < |r| ==> r[i].id == firstId + i)
  {
    CompactMapOfKept(lines, firstId, ParseTaskLine, line => Trim(line) != []);
  }

  /** The name as a summary line shows it: wrapped in `~~` when completed. */
  function MarkedName(name: string, isCompleted: bool): string {
    if isCompleted then "~~" + name + "~~" else name
  }

  /**
   * One summary line (`taskLines`): the list's item symbol, the marked name,
   * a colon, a space and the `hms` of the seconds.
   */
  function FormatTaskLine(symbol: string, name: string, isCompleted: bool, seconds: nat): (r: string)
    ensures |r| >= |symbol| + |name| + 2 + |Hms(seconds)|
    ensures r[..|symbol|] == symbol && r[|r| - |Hms(seconds)|..] == Hms(seconds)
  {
    symbol + MarkedName(name, isCompleted) + ": " + Hms(seconds)
  }

  // ---------------------------------------------------------------------------
  // Reading back what the summary writes
  // ---------------------------------------------------------------------------

  /**
   * A name the parser gives back unchanged: not empty, already trimmed, on
   * one line, without a colon, not starting with an item symbol and not
   * itself wrapped in `~~`.
   */
  predicate IsPlainName(name: string) {
    && name != []
    && Trim(name) == name
    && NoLineTerminator(name)
    && (forall i :: 0 <= i < |name| ==> name[i] != ':')
    && FirstSymbol(name).None?
    && !HasCompletionMarkers(name)
  }

  /** Every supported symbol has a space or a tab as its second character. */
  lemma NoSymbolStart(s: string)
    requires |s| >= 2 ==> s[1] != ' ' && s[1] != '\t'
    ensures FirstSymbol(s).None?
  {
    forall k | 0 <= k < |SupportedSymbols|
      ensures !StartsWith(s, SupportedSymbols[k])
    {
      SymbolShape(k);
    }
  }

  /**
   * A character-level test for plain names: trimmed ends, one line, no colon,
   * no space or tab as the second character and no `~` as the first.
   */
  lemma PlainNameByChars(name: string)
    requires name != [] && !IsTrimSpace(name[0]) && !IsTrimSpace(name[|name| - 1])
    requires NoLineTerminator(name) && forall i :: 0 <= i < |name| ==> name[i] != ':'
    requires |name| >= 2 ==> name[1] != ' ' && name[1] != '\t'
    requires name[0] != '~'
    ensures IsPlainName(name)
  {
    TrimOfUntrimmable(name);
    NoSymbolStart(name);
  }

  /** Text after a symbol-free start does not start with a symbol either. */
  lemma FirstSymbolOfExtension(a: string, b: string)
    requires a != [] && FirstSymbol(a).None?
    requires |a| == 1 ==> b == [] || (b[0] != ' ' && b[0] != '\t')
    ensures FirstSymbol(a + b).None?
  {
    forall k | 0 <= k < |SupportedSymbols|
      ensures !StartsWith(a + b, SupportedSymbols[k])
    {
      SymbolShape(k);
      if |a| >= 2 {
        assert (a + b)[..2] == a[..2];
        assert !StartsWith(a, SupportedSymbols[k]);
      }
    }
  }

  /** A line that starts with a supported symbol is recognised as starting with that symbol. */
  lemma FirstSymbolOfSymbolLine(symbol: string, rest: string)
    requires symbol in SupportedSymbols
    ensures FirstSymbol(symbol + rest).Some?
    ensures SupportedSymbols[FirstSymbol(symbol + rest).value] == symbol
  {
    var line := symbol + rest;
    var k0 :| 0 <= k0 < |SupportedSymbols| && SupportedSymbols[k0] == symbol;
    SymbolShape(k0);
    assert line[..2] == symbol;
    assert StartsWith(line, SupportedSymbols[k0]);
    var k := FirstSymbol(line).value;
    SymbolShape(k);
  }

  /** The marked name loses its `~~` markers again, and only those. */
  lemma StripMarkedName(name: string, isCompleted: bool)
    requires !HasCompletionMarkers(name)
    ensures StripCompletionMarker(MarkedName(name, isCompleted)) == Marked(name, isCompleted)
  {
    if isCompleted {
      var s := MarkedName(name, true);
      assert s[..2] == "~~" && s[|s| - 2..] == "~~";
      assert s[2..|s| - 2] == name;
    }
  }

  /** `createTask` leaves a plain name as it is. */
  lemma CreateTaskOfPlainName(id: nat, name: string, elapsed: nat, isCompleted: bool)
    requires IsPlainName(name)
    ensures CreateTask(id, name, elapsed, isCompleted) == Task(id, name, elapsed, isCompleted)
  {
  }

  /** A marked plain name holds no colon and no line terminator, and starts with no symbol. */
  lemma MarkedNameShape(name: string, isCompleted: bool)
    requires IsPlainName(name)
    ensures var body := MarkedName(name, isCompleted);
      && body != [] && NoLineTerminator(body) && (forall i :: 0 <= i < |body| ==> body[i] != ':')
      && !IsTrimSpace(body[0]) && FirstSymbol(body).None?
      && (|body| == 1 ==> body == name)
  {
    var body := MarkedName(name, isCompleted);
    TrimmedEnds(name);
    if isCompleted {
      forall k | 0 <= k < |SupportedSymbols|
        ensures !StartsWith(body, SupportedSymbols[k])
      {
        SymbolShape(k);
      }
    }
  }

  /** The text after the symbol, when it carries a time suffix. */
  lemma ParseContentWithTime(name: string, isCompleted: bool, g: TimeGroups, id: nat)
    requires IsPlainName(name) && WellFormed(g)
    ensures ParseContent(MarkedName(name, isCompleted) + ":" + Render(g), id) == Task(id, name, GroupSeconds(g), isCompleted)
  {
    var body := MarkedName(name, isCompleted);
    var content := body + ":" + Render(g);
    var colon := |body|;
    MarkedNameShape(name, isCompleted);
    assert content[colon + 1..] == Render(g);
    assert content[..colon] == body;
    MatchTailComplete(g);
    FindTimeMatchAt(content, colon, g);
    StripMarkedName(name, isCompleted);
    CreateTaskOfPlainName(id, name, GroupSeconds(g), isCompleted);
  }

  /** The text after the symbol, when it carries no time suffix. */
  lemma ParseContentWithoutTime(name: string, isCompleted: bool, id: nat)
    requires IsPlainName(name)
    ensures ParseContent(MarkedName(name, isCompleted), id) == Task(id, name, 0, isCompleted)
  {
    var body := MarkedName(name, isCompleted);
    MarkedNameShape(name, isCompleted);
    FirstColonFound(body, 0, MatchTail);
    StripMarkedName(name, isCompleted);
    CreateTaskOfPlainName(id, name, 0, isCompleted);
  }

  /** A match without trailing space ends in a digit. */
  lemma RenderEndsInDigit(g: TimeGroups)
    requires WellFormed(g) && g.trail == []
    ensures Render(g) != [] && IsDigit(Render(g)[|Render(g)| - 1])
  {
    RenderUnfold(g);
    var c2, c3 := ColonGroup(g.second), ColonGroup(g.third);
    var t := g.lead + g.first + c2 + c3;
    assert Render(g) == t;
    if c3 != [] {
      assert t[|t| - 1] == g.third.value[1];
    } else if c2 != [] {
      assert t[|t| - 1] == g.second.value[1];
    } else {
      assert t[|t| - 1] == g.first[|g.first| - 1];
    }
  }

  /**
   * A line made of an item symbol (or none) and text that is trimmed and, when
   * there is no symbol, starts with none: the symbol is recognised and the
   * text comes back as it is.
   */
  lemma ParseItemOfSymbolLine(symbol: string, text: string)
    requires symbol == "" || symbol in SupportedSymbols
    requires text != [] && !IsTrimSpace(text[0]) && !IsTrimSpace(text[|text| - 1])
    requires symbol == "" ==> FirstSymbol(text).None?
    ensures Trim(symbol + text) == symbol + text
    ensures ParseItemSymbolAndText(symbol + text) == SymbolSplit(if symbol == "" then None else Some(symbol), text)
  {
    var line := symbol + text;
    assert line[|line| - 1] == text[|text| - 1];
    if symbol == "" {
      assert line == text;
      TrimOfUntrimmable(text);
    } else {
      var k0 :| 0 <= k0 < |SupportedSymbols| && SupportedSymbols[k0] == symbol;
      SymbolShape(k0);
      TrimOfUntrimmable(line);
      TrimOfUntrimmable(text);
      FirstSymbolOfSymbolLine(symbol, text);
      assert line[|symbol|..] == text;
    }
  }

  /** The text after the symbol of a line with a time suffix is trimmed and starts with no symbol. */
  lemma TimedTextShape(name: string, isCompleted: bool, g: TimeGroups)
    requires IsPlainName(name) && WellFormed(g) && g.trail == []
    ensures var text := MarkedName(name, isCompleted) + ":" + Render(g);
      text != [] && !IsTrimSpace(text[0]) && !IsTrimSpace(text[|text| - 1]) && FirstSymbol(text).None?
  {
    var body := MarkedName(name, isCompleted);
    assert body != [] && !IsTrimSpace(body[0]) && FirstSymbol(body).None? by {
      MarkedNameShape(name, isCompleted);
    }
    assert Render(g) != [] && IsDigit(Render(g)[|Render(g)| - 1]) by {
      RenderEndsInDigit(g);
    }
    ColonTextShape(body, Render(g));
  }

  /** Text, a colon, then text ending in a digit. */
  lemma ColonTextShape(body: string, rest: string)
    requires body != [] && !IsTrimSpace(body[0]) && FirstSymbol(body).None?
    requires rest != [] && IsDigit(rest[|rest| - 1])
    ensures var text := body + ":" + rest;
      text != [] && !IsTrimSpace(text[0]) && !IsTrimSpace(text[|text| - 1]) && FirstSymbol(text).None?
  {
    var text := body + ":" + rest;
    assert text[0] == body[0];
    assert text[|text| - 1] == rest[|rest| - 1];
    assert (":" + rest)[0] == ':';
    assert text == body + (":" + rest);
    FirstSymbolOfExtension(body, ":" + rest);
  }

  /** A non-blank line is parsed from the text its symbol leaves. */
  lemma ParseTaskLineOfTrimmed(line: string, id: nat)
    requires line != [] && Trim(line) == line
    ensures ParseTaskLine(line, id) == Some(ParseContent(ParseItemSymbolAndText(line).cleanText, id))
  {
  }

  /**
   * Parsing a line with an optional item symbol, a plain name (marked when
   * completed), a colon and a time suffix without trailing space gives back
   * the name, the completion flag and the suffix's seconds.
   */
  lemma ParseLineWithTime(symbol: string, name: string, isCompleted: bool, g: TimeGroups, id: nat)
    requires symbol == "" || symbol in SupportedSymbols
    requires IsPlainName(name) && WellFormed(g) && g.trail == []
    ensures ParseTaskLine(symbol + (MarkedName(name, isCompleted) + ":" + Render(g)), id)
      == Some(Task(id, name, GroupSeconds(g), isCompleted))
  {
    var text := MarkedName(name, isCompleted) + ":" + Render(g);
    var line := symbol + text;
    assert line != [] && Trim(line) == line && ParseItemSymbolAndText(line).cleanText == text by {
      TimedTextShape(name, isCompleted, g);
      ParseItemOfSymbolLine(symbol, text);
    }
    ParseTaskLineOfTrimmed(line, id);
    ParseContentWithTime(name, isCompleted, g, id);
  }

  /**
   * Parsing a line with an optional item symbol and a plain name (marked when
   * completed) and no time gives back the name and the flag, with no time.
   */
  lemma ParseLineWithoutTime(symbol: string, name: string, isCompleted: bool, id: nat)
    requires symbol == "" || symbol in SupportedSymbols
    requires IsPlainName(name)
    ensures ParseTaskLine(symbol + MarkedName(name, isCompleted), id) == Some(Task(id, name, 0, isCompleted))
  {
    var body := MarkedName(name, isCompleted);
    MarkedNameShape(name, isCompleted);
    TrimmedEnds(name);
    assert body[|body| - 1] == (if isCompleted then '~' else name[|name| - 1]);
    ParseItemOfSymbolLine(symbol, body);
    ParseTaskLineOfTrimmed(symbol + body, id);
    ParseContentWithoutTime(name, isCompleted, id);
  }

  /** The groups the time pattern reads out of `hms(t)`. */
  function HmsGroups(t: nat): TimeGroups {
    TimeGroups(" ", Show(t / 3600), Some(Pad2((t % 3600) / 60)), Some(Pad2(t % 60)), "")
  }

  /**
   * Below 100 hours, the space and the `hms` text after a summary line's colon
   * are a match of the time pattern whose groups give back the seconds.
   */
  lemma HmsIsMatch(t: nat)
    requires t < 100 * 3600
    ensures WellFormed(HmsGroups(t))
    ensures ":" + Render(HmsGroups(t)) == ": " + Hms(t)
    ensures GroupSeconds(HmsGroups(t)) == t
  {
    var g := HmsGroups(t);
    var h, m, s := Show(t / 3600), Pad2((t % 3600) / 60), Pad2(t % 60);
    assert ":" + Render(g) == ": " + Hms(t) by {
      RenderUnfold(g);
      assert Render(g) == " " + h + (":" + m) + (":" + s) + "";
    }
    assert GroupSeconds(g) == t by {
      SecondsByUnits(t);
    }
  }

  /**
   * The summary's own lines read back: below 100 hours, parsing
   * `FormatTaskLine` gives back the name, the seconds and the completion flag
   * of a task with a plain name, whatever supported symbol (or none) the list
   * uses. The task editor relies on this.
   */
  lemma FormatParseRoundTrip(symbol: string, name: string, isCompleted: bool, seconds: nat, id: nat)
    requires symbol == "" || symbol in SupportedSymbols
    requires IsPlainName(name) && seconds < 100 * 3600
    ensures ParseTaskLine(FormatTaskLine(symbol, name, isCompleted, seconds), id) == Some(Task(id, name, seconds, isCompleted))
  {
    HmsIsMatch(seconds);
    FormatTaskLineAsMatch(symbol, MarkedName(name, isCompleted), seconds);
    ParseLineWithTime(symbol, name, isCompleted, HmsGroups(seconds), id);
  }

  /** A summary line is the symbol, the marked name, a colon and the rendered groups of its time. */
  lemma FormatTaskLineAsMatch(symbol: string, body: string, seconds: nat)
    requires seconds < 100 * 3600
    requires ":" + Render(HmsGroups(seconds)) == ": " + Hms(seconds)
    ensures symbol + body + ": " + Hms(seconds) == symbol + (body + ":" + Render(HmsGroups(seconds)))
  {
    var g := HmsGroups(seconds);
    assert symbol + body + ": " + Hms(seconds) == symbol + (body + (":" + Render(g)));
    assert body + (":" + Render(g)) == body + ":" + Render(g);
  }

  // ---------------------------------------------------------------------------
  // Documented cases
  // ---------------------------------------------------------------------------

  /** A plain name, optionally wrapped in markers, followed by ":" and a rendered time suffix. */
  lemma ParseNamedTime(name: string, isCompleted: bool, g: TimeGroups, suffix: string, id: nat)
    requires IsPlainName(name) && WellFormed(g) && g.trail == [] && Render(g) == suffix
    ensures ParseTaskLine(MarkedName(name, isCompleted) + ":" + suffix, id)
      == Some(Task(id, name, GroupSeconds(g), isCompleted))
  {
    assert MarkedName(name, isCompleted) + ":" + suffix == "" + (MarkedName(name, isCompleted) + ":" + Render(g));
    ParseLineWithTime("", name, isCompleted, g, id);
  }

  lemma HoursGroups(g: TimeGroups)
    requires g == TimeGroups(" ", "1", Some("30"), Some("45"), "")
    ensures WellFormed(g) && Render(g) == " 1:30:45" && GroupSeconds(g) == 5445
  {
    RenderUnfold(g);
    assert ColonGroup(g.second) == ":30" && ColonGroup(g.third) == ":45";
    assert DigitsValue("30") == 30 && DigitsValue("45") == 45;
  }

  lemma MinutesGroups(g: TimeGroups)
    requires g == TimeGroups(" ", "5", Some("30"), None, "")
    ensures WellFormed(g) && Render(g) == " 5:30" && GroupSeconds(g) == 330
  {
    RenderUnfold(g);
    assert ColonGroup(g.second) == ":30" && ColonGroup(g.third) == "";
    assert DigitsValue("30") == 30;
  }

  lemma CompletedGroups(g: TimeGroups)
    requires g == TimeGroups(" ", "0", Some("30"), None, "")
    ensures WellFormed(g) && Render(g) == " 0:30" && GroupSeconds(g) == 30
  {
    RenderUnfold(g);
    assert ColonGroup(g.second) == ":30" && ColonGroup(g.third) == "";
    assert DigitsValue("30") == 30;
  }

  lemma JoinAt(a: string, b: string, c: string, d: string)
    requires d == b + c
    ensures a + d == a + b + c
  {
  }

  lemma HoursSuffix(name: string, id: nat)
    requires IsPlainName(name)
    ensures ParseTaskLine(MarkedName(name, false) + ":" + " 1:30:45", id) == Some(Task(id, name, 5445, false))
  {
    var g := TimeGroups(" ", "1", Some("30"), Some("45"), "");
    HoursGroups(g);
    ParseNamedTime(name, false, g, " 1:30:45", id);
  }

  lemma MinutesSuffix(name: string, id: nat)
    requires IsPlainName(name)
    ensures ParseTaskLine(MarkedName(name, false) + ":" + " 5:30", id) == Some(Task(id, name, 330, false))
  {
    var g := TimeGroups(" ", "5", Some("30"), None, "");
    MinutesGroups(g);
    ParseNamedTime(name, false, g, " 5:30", id);
  }

  lemma CompletedSuffix(name: string, id: nat)
    requires IsPlainName(name)
    ensures ParseTaskLine(MarkedName(name, true) + ":" + " 0:30", id) == Some(Task(id, name, 30, true))
  {
    var g := TimeGroups(" ", "0", Some("30"), None, "");
    CompletedGroups(g);
    ParseNamedTime(name, true, g, " 0:30", id);
  }

  /** Three groups are hours, minutes and seconds ("Test Task: 1:30:45" is 5445 seconds). */
  lemma ParseHoursExample(name: string, id: nat)
    requires IsPlainName(name)
    ensures ParseTaskLine(name + ": 1:30:45", id) == Some(Task(id, name, 5445, false))
  {
    JoinAt(name, ":", " 1:30:45", ": 1:30:45");
    HoursSuffix(name, id);
  }

  /** Two groups are minutes and seconds ("Short task: 5:30" is 330 seconds). */
  lemma ParseMinutesExample(name: string, id: nat)
    requires IsPlainName(name)
    ensures ParseTaskLine(name + ": 5:30", id) == Some(Task(id, name, 330, false))
  {
    JoinAt(name, ":", " 5:30", ": 5:30");
    MinutesSuffix(name, id);
  }

  /** Markers around the name, before the time, mark the task completed ("~~Done~~: 0:30"). */
  lemma ParseCompletedExample(name: string, id: nat)
    requires IsPlainName(name)
    ensures ParseTaskLine("~~" + name + "~~: 0:30", id) == Some(Task(id, name, 30, true))
  {
    JoinAt("~~" + name, "~~", ": 0:30", "~~: 0:30");
    JoinAt("~~" + name + "~~", ":", " 0:30", ": 0:30");
    CompletedSuffix(name, id);
  }

  /** One leading symbol is removed; the same character later in the name is kept. */
  lemma ParseSymbolExample(line: string, name: string, id: nat)
    requires line == "- Fix bug-123" && name == "Fix bug-123"
    ensures ParseTaskLine(line, id) == Some(Task(id, name, 0, false))
  {
    ExampleNameIsPlain(name);
    assert "- " + MarkedName(name, false) == line;
    ParseLineWithoutTime("- ", name, false, id);
  }

  lemma ExampleNameIsPlain(name: string)
    requires name == "Fix bug-123"
    ensures IsPlainName(name)
  {
    assert name[0] == 'F' && name[1] == 'i' && name[|name| - 1] == '3';
    PlainNameByChars(name);
  }

  /**
   * A second symbol right after the first is removed too: the text after
   * the first symbol goes through the symbol split once more when the task
   * is created, so "- - x" names its task "x".
   */
  lemma ParseDoubleSymbol(outer: string, inner: string, name: string, id: nat)
    requires outer in SupportedSymbols && inner in SupportedSymbols
    requires IsPlainName(name)
    ensures ParseTaskLine(outer + (inner + name), id) == Some(Task(id, name, 0, false))
  {
    var body := inner + name;
    SymbolNameShape(inner, name);
    ParseItemOfSymbolLine(outer, body);
    ParseTaskLineOfTrimmed(outer + body, id);
    ParseContentOfSymbolName(inner, name, id);
  }

  lemma SymbolNameShape(inner: string, name: string)
    requires inner in SupportedSymbols && IsPlainName(name)
    ensures var body := inner + name;
      && body != [] && !IsTrimSpace(body[0]) && !IsTrimSpace(body[|body| - 1])
      && (forall i :: 0 <= i < |body| ==> body[i] != ':')
      && !HasCompletionMarkers(body)
  {
    var body := inner + name;
    var k :| 0 <= k < |SupportedSymbols| && SupportedSymbols[k] == inner;
    SymbolShape(k);
    TrimmedEnds(name);
    assert body[0] == inner[0] && body[|body| - 1] == name[|name| - 1];
    forall i | 0 <= i < |body|
      ensures body[i] != ':'
    {
      if i >= |inner| {
        assert body[i] == name[i - |inner|];
      }
    }
    assert |body| >= 2 ==> body[..2][0] == inner[0];
  }

  lemma ParseContentOfSymbolName(inner: string, name: string, id: nat)
    requires inner in SupportedSymbols && IsPlainName(name)
    ensures ParseContent(inner + name, id) == Task(id, name, 0, false)
  {
    var body := inner + name;
    SymbolNameShape(inner, name);
    FirstColonFound(body, 0, MatchTail);
    TrimmedEnds(name);
    ParseItemOfSymbolLine(inner, name);
  }

  /**
   * A first group of three or more digits, after any run of `\s`, is not a
   * match whatever follows it: `\d{1,2}` leaves a digit that neither a `:dd`
   * group nor the closing `\s*$` can take.
   */
  lemma LongHoursRejected(lead: string, h: string, rest: string, t: string)
    requires AllRegexSpace(lead) && |h| >= 3 && AllDigits(h) && t == lead + h + rest
    ensures MatchTail(t).None?
  {
    var i := |lead|;
    assert forall x :: 0 <= x < i ==> t[x] == lead[x];
    assert t[i] == h[0];
    SpanRegexSpaceAt(t, 0, i);
    var j := SpanDigits(t, i);
    SpanDigitsRun(t, i);
    assert forall x :: i <= x < i + 3 ==> t[x] == h[x - i];
  }

  /**
   * From 100 hours on, what a summary line carries after the name's colon is
   * no longer a match: the hour group has three digits, so the round trip of
   * `FormatParseRoundTrip` stops there.
   */
  lemma HmsBeyondHundredHoursNoMatch(t: nat)
    requires t >= 100 * 3600
    ensures MatchTail(" " + Hms(t)).None?
  {
    var h, m, s := Show(t / 3600), Pad2((t % 3600) / 60), Pad2(t % 60);
    assert " " + Hms(t) == " " + h + (":" + m + ":" + s);
    LongHoursRejected(" ", h, ":" + m + ":" + s, " " + Hms(t));
  }
}
