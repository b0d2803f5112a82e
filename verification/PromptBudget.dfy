/** Prompt budgeting: deterministic truncation and compact bullet summaries. */
module PromptBudget {
  import opened Text

  const SUFFIX := "\n\n[truncated]"
  const HEADER := "Summary:\n"
  const MAX_ITEMS := 10

  function Max(a: int, b: int): int { if a > b then a else b }

  function Min(a: int, b: int): int { if a < b then a else b }

  function TruncateText(text: string, maxChars: int): (r: string)
    ensures |r| <= Max(0, maxChars)
    ensures |text| <= maxChars ==> r == text
  {
    var limit := Max(0, maxChars);
    if |text| <= limit then text
    else if limit <= |SUFFIX| then text[..limit]
    else text[..limit - |SUFFIX|] + SUFFIX
  }

  /** What is kept of a text over the budget: the whole budget is used, by a beginning of the text and the suffix, or
      by the beginning alone where the suffix has no room. */
  lemma TruncatedForm(text: string, maxChars: int)
    requires |text| > maxChars
    ensures var r := TruncateText(text, maxChars);
            && |r| == Max(0, maxChars)
            && (maxChars <= |SUFFIX| ==> r <= text)
            && (maxChars > |SUFFIX| ==> r[maxChars - |SUFFIX|..] == SUFFIX && r[..maxChars - |SUFFIX|] <= text)
  {
  }

  // ----- lines -----

  function LeadingNewlines(s: string): (n: nat)
    ensures n <= |s|
    ensures n == 0 <==> (s == "" || s[0] != '\n')
  {
    if s != "" && s[0] == '\n' then 1 + LeadingNewlines(s[1..]) else 0
  }

  /** Length of the match of \r?\n+ at the head of `s`, 0 for none. */
  function SeparatorLength(s: string): (n: nat)
    ensures n <= |s|
  {
    if LeadingNewlines(s) > 0 then LeadingNewlines(s)
    else if |s| > 1 && s[0] == '\r' && s[1] == '\n' then 1 + LeadingNewlines(s[1..])
    else 0
  }

  /** re.split(r"\r?\n+", s), with `current` the part of the first piece already read. */
  function SplitLines(current: string, s: string): (r: seq<string>)
    ensures r != []
    decreases |s|
  {
    if s == "" then [current]
    else if SeparatorLength(s) > 0 then [current] + SplitLines("", s[SeparatorLength(s)..])
    else SplitLines(current + [s[0]], s[1..])
  }

  function StripAll(lines: seq<string>): seq<string> {
    if lines == [] then []
    else (if Strip(lines[0]) == "" then [] else [Strip(lines[0])]) + StripAll(lines[1..])
  }

  /** The stripped non-empty lines of `value`. */
  function Lines(value: string): seq<string> {
    StripAll(SplitLines("", value))
  }

  /** value.split("\n"), with `current` the part of the first piece already read. */
  function Pieces(current: string, s: string): (r: seq<string>)
    ensures r != []
    decreases |s|
  {
    if s == "" then [current]
    else if s[0] == '\n' then [current] + Pieces("", s[1..])
    else Pieces(current + [s[0]], s[1..])
  }

  /** The runs of line breaks that the regular expression matches make no difference: the lines are the stripped
      non-empty pieces between single ones. */
  lemma LinesArePieces(value: string)
    ensures Lines(value) == StripAll(Pieces("", value))
  {
    SplitPieces("", value);
  }

  lemma {:induction false} SplitPieces(current: string, s: string)
    ensures StripAll(SplitLines(current, s)) == StripAll(Pieces(current, s))
    decreases |s|
  {
    hide StripAll, Strip;
    if s != "" {
      var n := SeparatorLength(s);
      if n == 0 {
        SplitPieces(current + [s[0]], s[1..]);
      } else {
        SplitPieces("", s[n..]);
        StripAllHead(current, SplitLines("", s[n..]));
        if s[0] == '\n' {
          NewlinesSkipped(s[1..]);
          assert s[n..] == s[1..][LeadingNewlines(s[1..])..];
          StripAllHead(current, Pieces("", s[1..]));
        } else {
          NewlinesSkipped(s[2..]);
          assert s[1..][1..] == s[2..];
          assert s[n..] == s[2..][LeadingNewlines(s[2..])..];
          ReturnStripped(current);
          StripAllHead(current + ['\r'], Pieces("", s[2..]));
          assert Pieces(current, s) == Pieces(current + ['\r'], s[1..]) == [current + ['\r']] + Pieces("", s[2..]);
        }
      }
    }
  }

  lemma StripAllHead(line: string, rest: seq<string>)
    ensures StripAll([line] + rest) == (if Strip(line) == "" then [] else [Strip(line)]) + StripAll(rest)
  {
    assert ([line] + rest)[1..] == rest;
  }

  lemma {:induction false} NewlinesSkipped(s: string)
    ensures StripAll(Pieces("", s)) == StripAll(Pieces("", s[LeadingNewlines(s)..]))
  {
    hide StripAll;
    if s != "" && s[0] == '\n' {
      NewlinesSkipped(s[1..]);
      assert s[1..][LeadingNewlines(s[1..])..] == s[LeadingNewlines(s)..];
      StripAllHead("", Pieces("", s[1..]));
    }
  }

  /** A carriage return at the end of a line is whitespace to be stripped. */
  lemma ReturnStripped(s: string)
    ensures Strip(s + ['\r']) == Strip(s)
  {
    hide LStripBy, RStripBy;
    LStripSnoc(s, '\r');
    var left := LStripBy(IsSpace, s);
    if left != "" {
      assert (left + ['\r'])[..|left|] == left;
      RStripDropsLast(left + ['\r']);
    }
  }

  lemma RStripDropsLast(s: string)
    requires s != "" && IsSpace(s[|s| - 1])
    ensures RStripBy(IsSpace, s) == RStripBy(IsSpace, s[..|s| - 1])
  {
  }

  lemma {:induction false} LStripSnoc(s: string, c: char)
    requires IsSpace(c)
    ensures LStripBy(IsSpace, s + [c]) == if LStripBy(IsSpace, s) == "" then "" else LStripBy(IsSpace, s) + [c]
  {
    if s == "" {
      assert s + [c] == [c] && [c][1..] == "";
    } else {
      assert (s + [c])[1..] == s[1..] + [c] && (s + [c])[0] == s[0];
      LStripSnoc(s[1..], c);
    }
  }

  // ----- bullets -----

  predicate IsBulletTrim(c: char) { c == ' ' || c == '-' || c == '\t' }

  function CleanLine(line: string): string {
    StripBy(IsBulletTrim, Collapse(line))
  }

  function Shorten(line: string): (r: string)
    ensures |r| <= 220
    ensures line != "" ==> r != ""
  {
    if |line| > 220 then RStripBy(IsSpace, line[..217]) + "..." else line
  }

  /** The lower-cased forms of `lines`. */
  function LowerSet(lines: seq<string>): (r: set<string>)
    ensures forall i :: 0 <= i < |lines| ==> Lower(lines[i]) in r
  {
    if lines == [] then {} else LowerSet(lines[..|lines| - 1]) + {Lower(lines[|lines| - 1])}
  }

  function CleanLines(lines: seq<string>): (r: seq<string>)
    ensures |r| == |lines|
    ensures forall i :: 0 <= i < |r| ==> r[i] == CleanLine(lines[i])
  {
    seq(|lines|, i requires 0 <= i < |lines| => CleanLine(lines[i]))
  }

  /** The non-empty items that no earlier item equals ignoring case, in order. */
  function Distinct(items: seq<string>): (r: seq<string>)
    ensures forall i :: 0 <= i < |r| ==> r[i] != ""
  {
    if items == [] then []
    else AddDistinct(Distinct(items[..|items| - 1]), items[|items| - 1])
  }

  function AddDistinct(before: seq<string>, item: string): seq<string> {
    if item == "" || Lower(item) in LowerSet(before) then before else before + [item]
  }

  /** Every non-empty item survives up to case. */
  lemma {:induction false} DistinctCovers(items: seq<string>, i: nat)
    requires i < |items| && items[i] != ""
    ensures Lower(items[i]) in LowerSet(Distinct(items))
  {
    var before := Distinct(items[..|items| - 1]);
    var last := items[|items| - 1];
    if i < |items| - 1 {
      DistinctCovers(items[..|items| - 1], i);
    }
    assert (before + [last])[..|before|] == before;
  }

  function Bullets(lines: seq<string>): (r: seq<string>)
    ensures |r| == |lines|
    ensures forall i :: 0 <= i < |r| ==> r[i] == "- " + Shorten(lines[i])
  {
    seq(|lines|, i requires 0 <= i < |lines| => "- " + Shorten(lines[i]))
  }

  function JoinLines(items: seq<string>): (r: string)
    ensures items == [] ==> r == ""
    ensures items != [] ==> |items[0]| <= |r| && r[..|items[0]|] == items[0]
  {
    if items == [] then ""
    else if |items| == 1 then items[0]
    else items[0] + "\n" + JoinLines(items[1..])
  }

  /** Joining separates what is joined by single line breaks. */
  lemma {:induction false} JoinedLines(a: seq<string>, b: seq<string>)
    ensures a != [] && b != [] ==> JoinLines(a + b) == JoinLines(a) + "\n" + JoinLines(b)
    ensures forall x :: JoinLines([x]) == x
  {
    if a != [] && b != [] {
      if |a| == 1 {
        assert (a + b)[1..] == b;
      } else {
        assert (a + b)[1..] == a[1..] + b;
        JoinedLines(a[1..], b);
      }
    }
  }

  /** A stripped line is cleaned to its words, joined by single blanks and less dashes and blanks around them. */
  lemma CleanedWords(line: string)
    requires Stripped(line)
    ensures CleanLine(line) == StripBy(IsBulletTrim, JoinWords(Words(IsSpace, line)))
  {
    hide StripBy, Collapse, JoinWords, WordsFrom;
    SingleSpaced(line);
    CollapseStaysStripped(line);
  }

  lemma CollapseStaysStripped(s: string)
    requires Stripped(s)
    ensures Stripped(Collapse(s))
  {
    hide Collapse, IsSpace;
    CollapseIsCollapsed(s);
    CollapseEnds(s);
  }

  lemma {:induction false} CollapseEnds(s: string)
    requires s == "" || !IsSpace(s[|s| - 1])
    ensures Collapse(s) == "" <==> s == ""
    ensures s != "" ==> Collapse(s)[|Collapse(s)| - 1] == s[|s| - 1]
    decreases |s|
  {
    hide IsSpace, LStripBy;
    if s != "" {
      var rest := if IsSpace(s[0]) then LStripBy(IsSpace, s) else s[1..];
      if IsSpace(s[0]) {
        LStripShorter(s);
        LastStays(s);
      }
      CollapseEnds(rest);
    }
  }

  lemma LastStays(s: string)
    requires s != "" && !IsSpace(s[|s| - 1]) && IsSpace(s[0])
    ensures LStripBy(IsSpace, s) != ""
  {
    LStripDrops(IsSpace, s);
  }

  /** A long line is cut to a beginning without blanks at its end, and an ellipsis. */
  lemma ShortenedForm(line: string)
    requires |line| > 220
    ensures var r := Shorten(line);
            && |r| >= 3 && r[|r| - 3..] == "..." && r[..|r| - 3] <= line && |r| <= 220
            && (forall i :: |r| - 3 <= i < 217 ==> IsSpace(line[i]))
            && (|r| > 3 ==> !IsSpace(r[|r| - 4]))
  {
    hide IsSpace;
    RStripDrops(IsSpace, line[..217]);
    var kept := RStripBy(IsSpace, line[..217]);
    assert Shorten(line)[..|kept|] == kept;
  }

  function Take<T>(s: seq<T>, n: int): (r: seq<T>)
    ensures r <= s
  {
    if n <= 0 then [] else if n < |s| then s[..n] else s
  }

  /** The summary text: the first distinct cleaned lines, shortened, as bullets under a header.
      The loop tests its item limit only after adding a bullet, so at least one is kept. */
  function Summary(text: string, maxChars: int, maxItems: int): (r: string)
    ensures |r| <= Max(0, maxChars)
  {
    var value := Strip(text);
    var kept := Take(Distinct(CleanLines(Lines(value))), Max(1, maxItems));
    if value == "" then ""
    else if kept == [] then TruncateText(value, maxChars)
    else TruncateText(HEADER + JoinLines(Bullets(kept)), maxChars)
  }

  /** The items that survive are pairwise distinct ignoring case. */
  lemma {:induction false} DistinctDiffer(items: seq<string>, i: nat, j: nat)
    requires i < j < |Distinct(items)|
    ensures Lower(Distinct(items)[i]) != Lower(Distinct(items)[j])
  {
    var before := Distinct(items[..|items| - 1]);
    if j < |before| {
      DistinctDiffer(items[..|items| - 1], i, j);
    } else {
      assert Lower(before[i]) in LowerSet(before);
    }
  }

  /** The `i`-th survivor is the first item with its lower-cased form, and `i` survivors precede it. */
  lemma {:induction false} DistinctSource(items: seq<string>, i: nat) returns (at: nat)
    requires i < |Distinct(items)|
    ensures at < |items| && items[at] == Distinct(items)[i]
    ensures |Distinct(items[..at])| == i
    ensures forall k :: 0 <= k < at ==> Lower(items[k]) != Lower(items[at])
  {
    var init := items[..|items| - 1];
    var before := Distinct(init);
    if i < |before| {
      at := DistinctSource(init, i);
      assert items[..at] == init[..at];
    } else {
      at := |items| - 1;
      forall k | 0 <= k < at ensures Lower(items[k]) != Lower(items[at]) {
        if init[k] != "" {
          DistinctCovers(init, k);
        }
      }
    }
  }

  /** Reading more items only adds survivors at the end. */
  lemma {:induction false} DistinctPrefix(items: seq<string>, k: nat)
    requires k <= |items|
    ensures Distinct(items[..k]) <= Distinct(items)
    decreases |items| - k
  {
    if k == |items| {
      assert items[..k] == items;
    } else {
      DistinctPrefix(items, k + 1);
      assert items[..k + 1][..k] == items[..k];
    }
  }

  /** The loop of summarize_text: bullets from the first distinct cleaned lines. */
  method CollectBullets(lines: seq<string>, maxItems: int) returns (bullets: seq<string>)
    ensures bullets == Bullets(Take(Distinct(CleanLines(lines)), Max(1, maxItems)))
  {
    hide CleanLine, Shorten, Lower, Distinct, LowerSet, Bullets, Take;
    bullets := [];
    var seen: set<string> := {};
    ghost var cleaned := CleanLines(lines);
    DistinctNone(cleaned);
    for i := 0 to |lines|
      invariant bullets == Bullets(Distinct(cleaned[..i]))
      invariant seen == LowerSet(Distinct(cleaned[..i]))
      invariant |bullets| < Max(1, maxItems)
    {
      var normalized := CleanLine(lines[i]);
      var lowered := Lower(normalized);
      DistinctStep(cleaned, i);
      if normalized == "" || lowered in seen {
        continue;
      }
      seen := seen + {lowered};
      bullets := bullets + ["- " + Shorten(normalized)];
      if |bullets| >= maxItems {
        DistinctPrefix(cleaned, i + 1);
        TakeWhole(Distinct(cleaned[..i + 1]), Distinct(cleaned), Max(1, maxItems));
        return;
      }
    }
    assert cleaned[..|lines|] == cleaned;
    TakeWhole(Distinct(cleaned), Distinct(cleaned), Max(1, maxItems));
  }

  lemma DistinctNone(items: seq<string>)
    ensures Distinct(items[..0]) == [] && LowerSet([]) == {} && Bullets([]) == []
  {
    assert items[..0] == [];
  }

  /** A head as long as the limit, or the whole list within it, is what the limit takes. */
  lemma TakeWhole<T>(head: seq<T>, s: seq<T>, n: int)
    requires head <= s && (|head| == n || (head == s && |s| <= n))
    ensures Take(s, n) == head
  {
  }

  /** summarize_text */
  method SummarizeText(text: string, maxChars: int, maxItems: int) returns (r: string)
    ensures r == Summary(text, maxChars, maxItems)
  {
    var value := Strip(text);
    if value == "" {
      return "";
    }
    var lines := Lines(value);
    var bullets := CollectBullets(lines, maxItems);
    if bullets == [] {
      return TruncateText(value, maxChars);
    }
    return TruncateText(HEADER + JoinLines(bullets), maxChars);
  }

  /** What a summary says: the first distinct cleaned lines, at least one and at most as many as asked for, each a
      shortened bullet, or without any the text itself; cut to the budget. */
  lemma SummaryContent(text: string, maxChars: int, maxItems: int) returns (bullets: seq<string>)
    ensures var kept := Distinct(CleanLines(Lines(Strip(text))));
            && |bullets| == Min(|kept|, Max(1, maxItems))
            && forall i :: 0 <= i < |bullets| ==> bullets[i] == "- " + Shorten(kept[i])
    ensures Summary(text, maxChars, maxItems) ==
            TruncateText(if bullets == [] then Strip(text) else "Summary:\n" + JoinLines(bullets), maxChars)
  {
    hide Distinct, Lines, JoinLines, Strip, TruncateText, CleanLines, Shorten;
    bullets := Bullets(Take(Distinct(CleanLines(Lines(Strip(text)))), Max(1, maxItems)));
    NothingDistinct();
    TruncatedNothing(maxChars);
  }

  lemma NothingDistinct()
    ensures Distinct(CleanLines(Lines(""))) == []
  {
    hide Lines, CleanLine;
    LinesOfNothing();
  }

  lemma LinesOfNothing()
    ensures Lines("") == []
  {
    hide Lines, StripAll, StripBy;
    var none: seq<string> := [];
    LinesArePieces("");
    StripAllHead("", none);
    assert [""] + none == [""];
    assert StripAll(none) == none by { NothingStripped(); }
  }

  lemma NothingStripped()
    ensures StripAll([]) == []
  {
  }

  lemma TruncatedNothing(maxChars: int)
    ensures TruncateText("", maxChars) == ""
  {
  }

  /** One turn of the loop: what an item adds to the survivors, to their lower-cased forms and to the bullets. */
  lemma DistinctStep(items: seq<string>, i: nat)
    requires i < |items|
    ensures var before := Distinct(items[..i]);
            var after := Distinct(items[..i + 1]);
            if items[i] == "" || Lower(items[i]) in LowerSet(before) then after == before
            else
              && LowerSet(after) == LowerSet(before) + {Lower(items[i])}
              && Bullets(after) == Bullets(before) + ["- " + Shorten(items[i])]
  {
    var before := Distinct(items[..i]);
    assert items[..i + 1][..i] == items[..i];
    assert (before + [items[i]])[..|before|] == before;
  }

  // ----- budgets -----

  datatype Budget = Budget(text: string, originalChars: nat, finalChars: nat, summarized: bool, truncated: bool)

  function ApplyPromptBudget(text: string, maxChars: int, summaryMaxChars: int): Budget {
    var summary := Summary(text, summaryMaxChars, MAX_ITEMS);
    if |text| <= maxChars then Budget(text, |text|, |text|, false, false)
    else if |summary| <= maxChars then Budget(summary, |text|, |summary|, true, |summary| < |text|)
    else
      var cut := TruncateText(summary, maxChars);
      Budget(cut, |text|, |cut|, true, true)
  }

  /** The budget is kept, the reported length is exact, and every summarised result is reported
      as truncated, whatever the two limits are. */
  lemma BudgetKept(text: string, maxChars: int, summaryMaxChars: int)
    ensures var b := ApplyPromptBudget(text, maxChars, summaryMaxChars);
            && |b.text| <= Max(0, maxChars)
            && b.finalChars == |b.text|
            && b.originalChars == |text|
            && b.truncated == b.summarized
            && (b.summarized <==> |text| > maxChars)
            && (b.summarized ==> b.text == TruncateText(Summary(text, summaryMaxChars, MAX_ITEMS), maxChars))
            && (!b.summarized ==> b.text == text)
  {
  }

  // ----- what a summary looks like -----

  /** Whitespace or a dash: what is left of a text that yields no bullet. */
  predicate IsFiller(c: char) { IsSpace(c) || c == '-' }

  lemma {:induction false} CollapseFiller(s: string)
    requires All(IsFiller, Collapse(s))
    ensures All(IsFiller, s)
    decreases |s|
  {
    hide IsSpace, LStripBy;
    if s != "" {
      var rest := if IsSpace(s[0]) then LStripBy(IsSpace, s) else s[1..];
      if IsSpace(s[0]) {
        LStripShorter(s);
      }
      CollapseTail(s);
      CollapseFiller(rest);
      FillerWhole(s, rest);
    }
  }

  lemma LStripShorter(s: string)
    requires s != "" && IsSpace(s[0])
    ensures |LStripBy(IsSpace, s)| < |s|
    ensures forall i :: 0 <= i < |s| - |LStripBy(IsSpace, s)| ==> IsSpace(s[i])
  {
    LStripDrops(IsSpace, s);
  }

  /** The first character and the rest of a collapsed filler text are filler. */
  lemma CollapseTail(s: string)
    requires s != "" && All(IsFiller, Collapse(s))
    ensures IsFiller(s[0])
    ensures All(IsFiller, Collapse(if IsSpace(s[0]) then LStripBy(IsSpace, s) else s[1..]))
  {
    hide IsSpace, LStripBy;
    var tail := Collapse(if IsSpace(s[0]) then LStripBy(IsSpace, s) else s[1..]);
    assert Collapse(s)[1..] == tail && (Collapse(s)[0] == s[0] || IsSpace(s[0]));
    assert IsFiller(Collapse(s)[0]);
    forall i | 0 <= i < |tail| ensures IsFiller(tail[i]) {
      assert tail[i] == Collapse(s)[i + 1];
    }
  }

  /** A filler tail and what was dropped before it, one filler character or whitespace, make a filler text. */
  lemma FillerWhole(s: string, rest: string)
    requires s != "" && IsFiller(s[0]) && All(IsFiller, rest)
    requires |rest| <= |s| && rest == s[|s| - |rest|..]
    requires forall i :: 1 <= i < |s| - |rest| ==> IsSpace(s[i])
    ensures All(IsFiller, s)
  {
    hide IsSpace;
    forall i | 0 <= i < |s| ensures IsFiller(s[i]) {
      if i >= |s| - |rest| {
        assert s[i] == rest[i - (|s| - |rest|)];
      }
    }
  }

  lemma StripFiller(s: string)
    requires All(IsFiller, Strip(s))
    ensures All(IsFiller, s)
  {
    hide StripBy;
    var lo := StripIsInfix(IsSpace, s);
    forall i | 0 <= i < |s| ensures IsFiller(s[i]) {
      if lo <= i < lo + |Strip(s)| {
        assert s[i] == Strip(s)[i - lo];
      }
    }
  }

  lemma CleanLineFiller(line: string)
    requires CleanLine(Strip(line)) == ""
    ensures All(IsFiller, line)
  {
    hide StripBy, Strip, Collapse;
    StripEmptyIff(IsBulletTrim, Collapse(Strip(line)));
    CollapseFiller(Strip(line));
    StripFiller(line);
  }

  lemma {:induction false} SplitLinesFiller(current: string, s: string)
    requires forall i :: 0 <= i < |SplitLines(current, s)| ==> All(IsFiller, SplitLines(current, s)[i])
    ensures All(IsFiller, current) && All(IsFiller, s)
    decreases |s|
  {
    var lines := SplitLines(current, s);
    if s == "" {
      assert lines[0] == current;
    } else if SeparatorLength(s) > 0 {
      var n := SeparatorLength(s);
      assert lines[0] == current;
      assert lines[1..] == SplitLines("", s[n..]);
      SplitLinesFiller("", s[n..]);
      SeparatorFiller(s);
      forall i | 0 <= i < |s| ensures IsFiller(s[i]) {
        if i >= n { assert s[i] == s[n..][i - n]; }
      }
    } else {
      SplitLinesFiller(current + [s[0]], s[1..]);
      var both := current + [s[0]];
      assert both[|current|] == s[0];
      forall i | 0 <= i < |current| ensures IsFiller(current[i]) { assert both[i] == current[i]; }
      forall i | 0 <= i < |s| ensures IsFiller(s[i]) {
        if i > 0 { assert s[i] == s[1..][i - 1]; }
      }
    }
  }

  lemma SeparatorFiller(s: string)
    ensures forall i :: 0 <= i < SeparatorLength(s) ==> IsFiller(s[i])
  {
    NewlinesFiller(s);
    if |s| > 1 {
      NewlinesFiller(s[1..]);
      forall i | 1 <= i < 1 + LeadingNewlines(s[1..]) ensures IsFiller(s[i]) {
        assert s[i] == s[1..][i - 1];
      }
    }
  }

  lemma {:induction false} NewlinesFiller(s: string)
    ensures forall i :: 0 <= i < LeadingNewlines(s) ==> s[i] == '\n'
  {
    if LeadingNewlines(s) > 0 {
      NewlinesFiller(s[1..]);
      forall i | 1 <= i < LeadingNewlines(s) ensures s[i] == '\n' {
        assert s[i] == s[1..][i - 1];
      }
    }
  }

  lemma {:induction false} StripAllFiller(lines: seq<string>, i: nat)
    requires forall k :: 0 <= k < |StripAll(lines)| ==> CleanLine(StripAll(lines)[k]) == ""
    requires i < |lines|
    ensures All(IsFiller, lines[i])
  {
    hide CleanLine, Strip;
    var rest := StripAll(lines[1..]);
    if i == 0 {
      if Strip(lines[0]) == "" {
        StripFiller(lines[0]);
      } else {
        assert StripAll(lines)[0] == Strip(lines[0]);
        CleanLineFiller(lines[0]);
      }
    } else {
      var off := |StripAll(lines)| - |rest|;
      forall k | 0 <= k < |rest| ensures CleanLine(rest[k]) == "" {
        assert rest[k] == StripAll(lines)[off + k];
      }
      StripAllFiller(lines[1..], i - 1);
    }
  }

  /** A text without bullets holds nothing but whitespace and dashes. */
  lemma NoBulletsFiller(value: string)
    requires Distinct(CleanLines(Lines(value))) == []
    ensures All(IsFiller, value)
  {
    var lines := Lines(value);
    forall k | 0 <= k < |lines| ensures CleanLine(lines[k]) == "" {
      if CleanLines(lines)[k] != "" {
        DistinctCovers(CleanLines(lines), k);
      }
    }
    forall i | 0 <= i < |SplitLines("", value)| ensures All(IsFiller, SplitLines("", value)[i]) {
      StripAllFiller(SplitLines("", value), i);
    }
    SplitLinesFiller("", value);
  }

  /** Either the summary is a cut of filler text, or it is a cut of a header followed by a dash. */
  lemma SummaryForm(value: string, maxChars: int, maxItems: int) returns (body: string)
    requires Stripped(value) && value != ""
    ensures Summary(value, maxChars, maxItems) == TruncateText(body, maxChars)
    ensures (body == value && All(IsFiller, value)) || (|body| > |HEADER| && body[..|HEADER| + 1] == HEADER + "-")
  {
    hide Lines, Distinct, TruncateText, StripBy, Shorten;
    var kept := Take(Distinct(CleanLines(Lines(value))), Max(1, maxItems));
    if kept == [] {
      NoBulletsFiller(value);
      body := value;
    } else {
      var joined := JoinLines(Bullets(kept));
      body := HEADER + joined;
      assert joined[..|Bullets(kept)[0]|] == "- " + Shorten(kept[0]);
      assert joined[0] == joined[..|Bullets(kept)[0]|][0] == '-';
    }
  }

  /** Cutting a non-empty text to at least one character keeps its first character. */
  lemma TruncateHead(text: string, maxChars: int)
    requires text != ""
    ensures maxChars >= 1 ==> TruncateText(text, maxChars) != "" && TruncateText(text, maxChars)[0] == text[0]
    ensures maxChars < 1 ==> TruncateText(text, maxChars) == ""
  {
  }
}
