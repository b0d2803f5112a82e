/** Completion fields: text, token, finding, effort and markdown budgets over raw JSON values. */
module CompletionFields {
  import opened Text
  import opened PromptBudget

  // ----- raw JSON -----

  /** A decoded JSON value, or Missing for an absent key. `shown` is its printed form, which the budgets only see for
      truthy values. */
  datatype Raw =
    | Missing
    | Null
    | Bool(flag: bool)
    | Num(number: real, shown: string)
    | Str(text: string)
    | Lst(items: seq<Raw>, shown: string)
    | Obj(entries: seq<(string, Raw)>, shown: string)

  predicate Truthy(v: Raw) {
    match v
    case Missing => false
    case Null => false
    case Bool(b) => b
    case Num(n, _) => n != 0.0
    case Str(s) => s != ""
    case Lst(items, _) => items != []
    case Obj(entries, _) => entries != []
  }

  /** str(v or "") */
  function Shown(v: Raw): string {
    if !Truthy(v) then ""
    else match v
      case Bool(_) => "True"
      case Str(s) => s
      case Num(_, shown) => shown
      case Lst(_, shown) => shown
      case Obj(_, shown) => shown
  }

  /** int(v), truncating toward zero; None where the conversion raises. */
  function AsInt(v: Raw): Option<int> {
    match v
    case Bool(b) => Some(if b then 1 else 0)
    case Num(n, _) => Some(if n >= 0.0 then n.Floor else -((-n).Floor))
    case Str(s) => ParseInt(s)
    case _ => None
  }

  /** The alignment score: float(v) unless v is None or "", None where the conversion raises. */
  function AsScore(v: Raw): Option<real> {
    match v
    case Bool(b) => Some(if b then 1.0 else 0.0)
    case Num(n, _) => Some(n)
    case Str(s) => (match ParseInt(s) case Some(n) => Some(n as real) case None => None)
    case _ => None
  }

  /** list(v or []); None where list() raises. */
  function AsList(v: Raw): Option<seq<Raw>> {
    if !Truthy(v) then Some([])
    else match v
      case Lst(items, _) => Some(items)
      case Str(s) => Some(seq(|s|, i requires 0 <= i < |s| => Str([s[i]])))
      case Obj(entries, _) => Some(seq(|entries|, i requires 0 <= i < |entries| => Str(entries[i].0)))
      case _ => None
  }

  // ----- budgets -----

  /** The environment-configured budgets. */
  datatype Limits = Limits(
    summaryMax: int, findingMax: int, findingsMaxItems: nat, verdictMax: int,
    effortMaxItems: nat, effortValueMax: int, extraStringMax: int, commentMax: int, contextMax: int)

  /** _budget_text_field on the printed value. */
  function BudgetText(v: string, maxChars: int, summaryCap: int): (r: string)
    ensures Stripped(r)
    ensures |r| <= Max(0, maxChars)
  {
    var text := Strip(v);
    if text == "" then ""
    else
      BudgetKept(text, maxChars, Min(summaryCap, maxChars));
      Strip(ApplyPromptBudget(text, maxChars, Min(summaryCap, maxChars)).text)
  }

  /** _budget_token_field on the printed value. */
  function BudgetToken(v: string, maxChars: nat): (r: string)
    ensures Stripped(r)
    ensures |r| <= maxChars
  {
    var text := Collapse(Strip(v));
    Strip(if |text| <= maxChars then text else text[..maxChars])
  }

  /** What a text field keeps: a stripped text that fits, whole; of any other its summary, cut to what fits. */
  lemma BudgetTextForm(v: string, maxChars: int, summaryCap: int)
    ensures var text, r := Strip(v), BudgetText(v, maxChars, summaryCap);
            && (|text| <= maxChars ==> r == text)
            && (|text| > maxChars && text != "" ==>
                  r == Strip(TruncateText(Summary(text, Min(summaryCap, maxChars), MAX_ITEMS), maxChars)))
  {
    hide StripBy, Summary;
    BudgetKept(Strip(v), maxChars, Min(summaryCap, maxChars));
  }

  /** Budgeting text twice is budgeting it once, for every pair of limits, even zero or negative ones. */
  lemma BudgetTextIdempotent(v: string, maxChars: int, summaryCap: int)
    ensures var r := BudgetText(v, maxChars, summaryCap);
            BudgetText(r, maxChars, summaryCap) == r
  {
    hide StripBy, Summary;
  }

  /** A token is stripped, single-spaced and short. */
  ghost predicate IsToken(s: string, maxChars: nat) {
    Stripped(s) && Collapsed(s) && |s| <= maxChars
  }

  lemma BudgetTokenShape(v: string, maxChars: nat)
    ensures IsToken(BudgetToken(v, maxChars), maxChars)
  {
    hide Collapse, StripBy, Strip;
    var text := Collapse(Strip(v));
    CollapseIsCollapsed(Strip(v));
    if |text| > maxChars {
      CollapsedInfix(text, 0, maxChars);
      assert text[0..maxChars] == text[..maxChars];
      StripKeepsCollapsed(text[..maxChars]);
    } else {
      StripKeepsCollapsed(text);
    }
  }

  /** What a token keeps: the words of the value joined by single blanks, and where that is too long as much of its
      beginning as fits, less a blank at the cut. */
  lemma BudgetTokenWords(v: string, maxChars: nat)
    ensures var text, r := JoinWords(Words(IsSpace, v)), BudgetToken(v, maxChars);
            && (|text| <= maxChars ==> r == text)
            && (|text| > maxChars ==> r <= text && (|r| == maxChars || (|r| == maxChars - 1 && text[|r|] == ' ')))
  {
    hide Collapse, StripBy, IsSpace, JoinWords, WordsFrom;
    SingleSpaced(v);
    var text := Collapse(Strip(v));
    CollapseStaysStripped(Strip(v));
    if |text| > maxChars {
      CollapseIsCollapsed(Strip(v));
      CutToken(text, maxChars);
    }
  }

  lemma CutToken(text: string, n: nat)
    requires Stripped(text) && Collapsed(text) && n < |text|
    ensures var r := Strip(text[..n]);
            r <= text && (|r| == n || (|r| == n - 1 && text[|r|] == ' '))
  {
    hide IsSpace, StripBy;
    var cut := text[..n];
    if n > 0 {
      assert cut[0] == text[0];
      if IsSpace(cut[n - 1]) {
        assert SpaceAlone(text, n - 1);
        assert n > 1;
        assert SpaceAlone(text, n - 2);
        assert cut == cut[..n - 1] + [cut[n - 1]];
        StrippedButLast(cut);
      }
    }
  }

  lemma StrippedButLast(s: string)
    requires |s| > 1 && !IsSpace(s[0]) && IsSpace(s[|s| - 1]) && !IsSpace(s[|s| - 2])
    ensures Strip(s) == s[..|s| - 1]
  {
  }

  lemma TokenUnchanged(s: string, maxChars: nat)
    requires IsToken(s, maxChars)
    ensures BudgetToken(s, maxChars) == s
  {
    hide StripBy, Collapse;
    CollapseFixed(s);
  }

  /** Budgeting a token twice is budgeting it once. */
  lemma BudgetTokenIdempotent(v: string, maxChars: nat)
    ensures var r := BudgetToken(v, maxChars);
            BudgetToken(r, maxChars) == r
  {
    BudgetTokenShape(v, maxChars);
    TokenUnchanged(BudgetToken(v, maxChars), maxChars);
  }

  // ----- escaped markdown -----

  /** str.replace(pattern, new) */
  function Replace(s: string, pattern: string, with: string): string
    requires pattern != ""
  {
    if s == "" then ""
    else if StartsWith(s, pattern) then with + Replace(s[|pattern|..], pattern, with)
    else [s[0]] + Replace(s[1..], pattern, with)
  }

  /** len(re.findall(r"\\r\\n|\\n|\\r", s)) */
  function CountEscapedBreaks(s: string): nat
    decreases |s|
  {
    if s == "" then 0
    else if StartsWith(s, "\\r\\n") then 1 + CountEscapedBreaks(s[4..])
    else if StartsWith(s, "\\n") || StartsWith(s, "\\r") then 1 + CountEscapedBreaks(s[2..])
    else CountEscapedBreaks(s[1..])
  }

  predicate HasLineBreak(s: string) { '\n' in s || '\r' in s }

  function Unescape(s: string): string {
    Replace(Replace(Replace(Replace(s, "\\r\\n", "\n"), "\\n", "\n"), "\\r", "\n"), "\\t", "\t")
  }

  /** What unescaping does, from left to right: text up to a backslash stays, the four escapes become a line break or a
      tab, and any other backslash stays. */
  lemma UnescapeLaws(a: string, b: string)
    requires '\\' !in a
    ensures Unescape(a) == a
    ensures Unescape(a + "\\n" + b) == a + "\n" + Unescape(b) && Unescape(a + "\\t" + b) == a + "\t" + Unescape(b)
    ensures Unescape(a + "\\r\\n" + b) == a + "\n" + Unescape(b)
    ensures !StartsWith(b, "\\n") ==> Unescape(a + "\\r" + b) == a + "\n" + Unescape(b)
    ensures b == "" || b[0] !in {'n', 'r', 't'} ==> Unescape(a + "\\" + b) == a + "\\" + Unescape(b)
  {
    hide Unescape, Replace;
    UnescapeAfter(a, "");
    assert a + "" == a;
    UnescapeAfter(a, "\\n" + b);
    UnescapeAfter(a, "\\t" + b);
    UnescapeAfter(a, "\\r\\n" + b);
    UnescapeAfter(a, "\\r" + b);
    UnescapeAfter(a, "\\" + b);
    UnescapeNext(b);
    assert a + ("\\n" + b) == a + "\\n" + b && a + ("\\t" + b) == a + "\\t" + b;
    assert a + ("\\r\\n" + b) == a + "\\r\\n" + b && a + ("\\r" + b) == a + "\\r" + b && a + ("\\" + b) == a + "\\" + b;
    assert a + ("\n" + Unescape(b)) == a + "\n" + Unescape(b) && a + ("\t" + Unescape(b)) == a + "\t" + Unescape(b);
    assert a + ("\\" + Unescape(b)) == a + "\\" + Unescape(b);
  }

  lemma {:induction false} ReplaceAfter(a: string, s: string, c: char, rest: string, with: string)
    requires '\\' !in a && c == '\\'
    ensures Replace(a + s, [c] + rest, with) == a + Replace(s, [c] + rest, with)
  {
    if a == "" {
      assert a + s == s && a + Replace(s, [c] + rest, with) == Replace(s, [c] + rest, with);
    } else {
      assert a[0] in a && (a + s)[1..] == a[1..] + s && (a + s)[0] == a[0];
      ReplaceAfter(a[1..], s, c, rest, with);
    }
  }

  lemma UnescapeAfter(a: string, s: string)
    requires '\\' !in a
    ensures Unescape(a + s) == a + Unescape(s) && Unescape("") == ""
  {
    hide Replace;
    assert "\\r\\n" == ['\\'] + "r\\n" && "\\n" == ['\\'] + "n" && "\\r" == ['\\'] + "r" && "\\t" == ['\\'] + "t";
    var s1 := Replace(s, "\\r\\n", "\n");
    var s2 := Replace(s1, "\\n", "\n");
    var s3 := Replace(s2, "\\r", "\n");
    ReplaceAfter(a, s, '\\', "r\\n", "\n");
    ReplaceAfter(a, s1, '\\', "n", "\n");
    ReplaceAfter(a, s2, '\\', "r", "\n");
    ReplaceAfter(a, s3, '\\', "t", "\t");
    NothingReplaced();
  }

  lemma NothingReplaced()
    ensures forall p, w :: p != "" ==> Replace("", p, w) == ""
  {
  }

  lemma ReplaceHit(p: string, w: string, s: string)
    requires p != ""
    ensures Replace(p + s, p, w) == w + Replace(s, p, w)
  {
    assert (p + s)[..|p|] == p && (p + s)[|p|..] == s;
  }

  lemma ReplaceMiss(p: string, w: string, s: string)
    requires p != "" && s != "" && !StartsWith(s, p)
    ensures Replace(s, p, w) == [s[0]] + Replace(s[1..], p, w)
  {
  }

  /** An escaped character that is no backslash is passed over by the replacement of another escape. */
  lemma ReplaceOther(c: char, d: char, w: string, s: string)
    requires c != d && c != '\\'
    ensures Replace(['\\', c] + s, ['\\', d], w) == ['\\', c] + Replace(s, ['\\', d], w)
  {
    var t := ['\\', c] + s;
    assert t[1..] == [c] + s && t[..2] == ['\\', c] && ([c] + s)[1..] == s;
    ReplaceMiss(['\\', d], w, t);
    assert !StartsWith([c] + s, ['\\', d]) by {
      if |s| > 0 { assert ([c] + s)[..2][0] == c; }
    }
    ReplaceMiss(['\\', d], w, [c] + s);
    assert ['\\'] + ([c] + Replace(s, ['\\', d], w)) == ['\\', c] + Replace(s, ['\\', d], w);
  }

  lemma PairStarts(c: char, s: string)
    ensures StartsWith(['\\', c] + s, "\\r\\n") ==> c == 'r' && StartsWith(s, "\\n")
  {
    var t := ['\\', c] + s;
    if StartsWith(t, "\\r\\n") {
      assert t[..4][1] == c && t[..4][2..] == s[..2];
    }
  }

  lemma SecondMatches(b: string, rest: string)
    requires rest != ""
    ensures StartsWith("\\" + b, ['\\'] + rest) ==> b != "" && b[0] == rest[0]
  {
    var t := "\\" + b;
    if StartsWith(t, ['\\'] + rest) {
      assert t[..|rest| + 1][1] == b[0] && (['\\'] + rest)[1] == rest[0];
    }
  }

  /** The first pass leaves an escape that is not the pair of both. */
  lemma PairMissed(c: char, w: string, s: string)
    requires c != '\\' && (c == 'r' ==> !StartsWith(s, "\\n"))
    ensures Replace(['\\', c] + s, "\\r\\n", w) == ['\\', c] + Replace(s, "\\r\\n", w)
  {
    var t := ['\\', c] + s;
    assert t[1..] == [c] + s && ([c] + s)[1..] == s;
    PairStarts(c, s);
    ReplaceMiss("\\r\\n", w, t);
    assert !StartsWith([c] + s, "\\r\\n") by {
      if |s| > 2 { assert ([c] + s)[..4][0] == c; }
    }
    ReplaceMiss("\\r\\n", w, [c] + s);
    assert ['\\'] + ([c] + Replace(s, "\\r\\n", w)) == ['\\', c] + Replace(s, "\\r\\n", w);
  }

  lemma UnescapeNext(b: string)
    ensures Unescape("\\n" + b) == "\n" + Unescape(b) && Unescape("\\t" + b) == "\t" + Unescape(b)
    ensures Unescape("\\r\\n" + b) == "\n" + Unescape(b)
    ensures !StartsWith(b, "\\n") ==> Unescape("\\r" + b) == "\n" + Unescape(b)
    ensures b == "" || b[0] !in {'n', 'r', 't'} ==> Unescape("\\" + b) == "\\" + Unescape(b)
  {
    hide Unescape;
    EscapedBreak(b);
    EscapedTab(b);
    EscapedPair(b);
    if !StartsWith(b, "\\n") { EscapedReturn(b); }
    if b == "" || b[0] !in {'n', 'r', 't'} { OtherBackslash(b); }
  }

  lemma LaterPasses(a: string, s: string)
    requires '\\' !in a
    ensures Replace(a + s, "\\n", "\n") == a + Replace(s, "\\n", "\n")
    ensures Replace(a + s, "\\r", "\n") == a + Replace(s, "\\r", "\n")
    ensures Replace(a + s, "\\t", "\t") == a + Replace(s, "\\t", "\t")
  {
    hide Replace;
    assert "\\n" == ['\\'] + "n" && "\\r" == ['\\'] + "r" && "\\t" == ['\\'] + "t";
    ReplaceAfter(a, s, '\\', "n", "\n");
    ReplaceAfter(a, s, '\\', "r", "\n");
    ReplaceAfter(a, s, '\\', "t", "\t");
  }

  lemma EscapedBreak(b: string)
    ensures Unescape("\\n" + b) == "\n" + Unescape(b)
  {
    hide Replace;
    var b1 := Replace(b, "\\r\\n", "\n");
    var b2 := Replace(b1, "\\n", "\n");
    PairMissed('n', "\n", b);
    ReplaceHit("\\n", "\n", b1);
    LaterPasses("\n", b2);
    LaterPasses("\n", Replace(b2, "\\r", "\n"));
  }

  lemma EscapedTab(b: string)
    ensures Unescape("\\t" + b) == "\t" + Unescape(b)
  {
    hide Replace;
    var b1 := Replace(b, "\\r\\n", "\n");
    var b2 := Replace(b1, "\\n", "\n");
    var b3 := Replace(b2, "\\r", "\n");
    PairMissed('t', "\n", b);
    ReplaceOther('t', 'n', "\n", b1);
    ReplaceOther('t', 'r', "\n", b2);
    ReplaceHit("\\t", "\t", b3);
  }

  lemma EscapedPair(b: string)
    ensures Unescape("\\r\\n" + b) == "\n" + Unescape(b)
  {
    hide Replace;
    var b1 := Replace(b, "\\r\\n", "\n");
    var b2 := Replace(b1, "\\n", "\n");
    ReplaceHit("\\r\\n", "\n", b);
    LaterPasses("\n", b1);
    LaterPasses("\n", b2);
    LaterPasses("\n", Replace(b2, "\\r", "\n"));
  }

  lemma EscapedReturn(b: string)
    requires !StartsWith(b, "\\n")
    ensures Unescape("\\r" + b) == "\n" + Unescape(b)
  {
    hide Replace;
    var b1 := Replace(b, "\\r\\n", "\n");
    var b2 := Replace(b1, "\\n", "\n");
    PairMissed('r', "\n", b);
    ReplaceOther('r', 'n', "\n", b1);
    ReplaceHit("\\r", "\n", b2);
    LaterPasses("\n", Replace(b2, "\\r", "\n"));
  }

  /** The first character of a text is a letter that would complete an escape. */
  predicate Completes(s: string) { s != "" && s[0] in {'n', 'r', 't'} }

  lemma OtherBackslash(b: string)
    requires !Completes(b)
    ensures Unescape("\\" + b) == "\\" + Unescape(b)
  {
    hide Replace;
    var b1 := PassedOver(b, "r\\n", "\n");
    var b2 := PassedOver(b1, "n", "\n");
    var b3 := PassedOver(b2, "r", "\n");
    var b4 := PassedOver(b3, "t", "\t");
    assert "\\r\\n" == ['\\'] + "r\\n" && "\\n" == ['\\'] + "n" && "\\r" == ['\\'] + "r" && "\\t" == ['\\'] + "t";
  }

  /** A backslash before a text that completes no escape is passed over, and nothing after it begins to complete one. */
  lemma PassedOver(b: string, rest: string, w: string) returns (r: string)
    requires !Completes(b) && Completes(rest) && !Completes(w) && w != ""
    ensures r == Replace(b, ['\\'] + rest, w) && Replace("\\" + b, ['\\'] + rest, w) == "\\" + r && !Completes(r)
  {
    r := Replace(b, ['\\'] + rest, w);
    var t := "\\" + b;
    assert t[1..] == b;
    SecondMatches(b, rest);
    ReplaceMiss(['\\'] + rest, w, t);
  }

  /** normalize_completion_comment_markdown on the printed value. */
  function NormalizeMarkdown(v: string): string {
    var text := Strip(v);
    if ShouldUnescape(text) then Unescape(text) else text
  }

  /** A stripped text without a real line break whose escaped ones are taken for line breaks. */
  predicate ShouldUnescape(text: string) {
    var breaks := CountEscapedBreaks(text);
    && text != "" && !HasLineBreak(text) && breaks != 0
    && (breaks >= 2 || Contains(text, "\\n\\n") || Contains(text, "\\r\\n\\r\\n"))
  }

  /** A backslash followed by `c` occurs nowhere in `s`. */
  predicate NoEscape(s: string, c: char) {
    forall i :: 0 <= i < |s| - 1 && s[i] == '\\' ==> s[i + 1] != c
  }

  predicate NoEscapedBreaks(s: string) { NoEscape(s, 'n') && NoEscape(s, 'r') }

  /** Replacing escapes by a single other character leaves no such escape and makes no new one. */
  lemma {:induction false} ReplaceRemoves(s: string, c: char, with: char)
    requires with != '\\' && with != c && with != 'n' && with != 'r'
    ensures var r := Replace(s, ['\\', c], [with]);
            && NoEscape(r, c)
            && (NoEscape(s, 'n') ==> NoEscape(r, 'n'))
            && (NoEscape(s, 'r') ==> NoEscape(r, 'r'))
            && (r != "" ==> s != "" && (r[0] == s[0] || r[0] == with))
            && (s != "" ==> r != "")
    decreases |s|
  {
    var pattern := ['\\', c];
    var r := Replace(s, pattern, [with]);
    if s != "" {
      var rest := if StartsWith(s, pattern) then s[2..] else s[1..];
      ReplaceRemoves(rest, c, with);
      var tail := Replace(rest, pattern, [with]);
      var head := if StartsWith(s, pattern) then with else s[0];
      assert r == [head] + tail;
      PairAtHead(s, '\\', c);
      forall x | x in {'n', 'r'} && NoEscape(s, x) ensures NoEscape(r, x) {
        assert NoEscape(rest, x) by {
          forall i | 0 <= i < |rest| - 1 && rest[i] == '\\' ensures rest[i + 1] != x {
            assert rest[i] == s[|s| - |rest| + i] && rest[i + 1] == s[|s| - |rest| + i + 1];
          }
        }
        NoEscapeCons(head, tail, x);
      }
      NoEscapeCons(head, tail, c);
    }
  }

  lemma PairAtHead(s: string, a: char, b: char)
    ensures StartsWith(s, [a, b]) <==> |s| >= 2 && s[0] == a && s[1] == b
  {
    if |s| >= 2 {
      assert s[..2] == [s[0], s[1]];
    }
  }

  lemma LongBreakStarts(s: string)
    ensures StartsWith(s, "\\r\\n") ==> StartsWith(s, "\\r")
  {
    if StartsWith(s, "\\r\\n") {
      assert s[..4][..2] == s[..2];
    }
  }

  lemma NoEscapeCons(head: char, tail: string, c: char)
    requires NoEscape(tail, c)
    requires head == '\\' && tail != "" ==> tail[0] != c
    ensures NoEscape([head] + tail, c)
  {
    var r := [head] + tail;
    forall i | 0 <= i < |r| - 1 && r[i] == '\\' ensures r[i + 1] != c {
      if i > 0 {
        assert r[i] == tail[i - 1] && r[i + 1] == tail[i];
      }
    }
  }

  lemma UnescapeLeavesNone(s: string)
    ensures NoEscapedBreaks(Unescape(s))
  {
    var s1 := Replace(s, "\\r\\n", "\n");
    var s2 := Replace(s1, "\\n", "\n");
    var s3 := Replace(s2, "\\r", "\n");
    ReplaceRemoves(s1, 'n', '\n');
    ReplaceRemoves(s2, 'r', '\n');
    ReplaceRemoves(s3, 't', '\t');
  }

  lemma {:induction false} NoEscapesNoCount(s: string)
    requires NoEscapedBreaks(s)
    ensures CountEscapedBreaks(s) == 0
  {
    if s != "" {
      assert NoEscapedBreaks(s[1..]) by {
        forall i | 0 <= i < |s[1..]| - 1 && s[1..][i] == '\\' ensures s[1..][i + 1] != 'n' && s[1..][i + 1] != 'r' {
          assert s[1..][i] == s[i + 1] && s[1..][i + 1] == s[i + 2];
        }
      }
      NoEscapesNoCount(s[1..]);
      PairAtHead(s, '\\', 'n');
      PairAtHead(s, '\\', 'r');
      LongBreakStarts(s);
    }
  }

  /** Text that NormalizeMarkdown returns unchanged for one of two reasons that survive budgeting. */
  predicate MarkdownSettled(s: string) {
    Stripped(s) && (HasLineBreak(s) || NoEscapedBreaks(s))
  }

  lemma SettledUnchanged(s: string)
    requires MarkdownSettled(s)
    ensures NormalizeMarkdown(s) == s
  {
    if !HasLineBreak(s) {
      NoEscapesNoCount(s);
    }
  }

  /** What a text over its budget becomes: a stripped cut of itself or of a header followed by a dash. */
  lemma OverBudgetForm(v: string, maxChars: int, summaryCap: int) returns (body: string)
    requires Strip(v) != "" && |Strip(v)| > maxChars
    ensures BudgetText(v, maxChars, summaryCap) == Strip(TruncateText(body, Min(summaryCap, maxChars)))
    ensures || (body == Strip(v) && All(IsFiller, body))
            || (|body| > |HEADER| && body[..|HEADER| + 1] == HEADER + "-")
  {
    hide Summary, StripBy;
    body := SummaryForm(Strip(v), Min(summaryCap, maxChars), MAX_ITEMS);
  }

  /** Cutting a summary at any length leaves a line break or no backslash at all. */
  lemma CutSettled(body: string, maxChars: int)
    requires (Stripped(body) && body != "" && All(IsFiller, body))
          || (|body| > |HEADER| && body[..|HEADER| + 1] == HEADER + "-")
    ensures MarkdownSettled(Strip(TruncateText(body, maxChars)))
  {
    hide StripBy, IsSpace, NoEscapedBreaks, All;
    if |body| > |HEADER| && body[..|HEADER| + 1] == HEADER + "-" {
      HeadedSettled(body, maxChars);
    } else {
      FillerSettled(body, maxChars);
    }
  }

  /** A cut that holds the suffix has a line break between its first and its last visible character. */
  lemma SuffixSettled(body: string, maxChars: int)
    requires |body| > maxChars > |SUFFIX| && !IsSpace(body[0])
    ensures HasLineBreak(Strip(TruncateText(body, maxChars)))
  {
    hide StripBy;
    var cut := TruncateText(body, maxChars);
    var n := maxChars - |SUFFIX|;
    assert cut[n] == SUFFIX[0] == '\n' && cut[|cut| - 1] == SUFFIX[12] == ']' && cut[0] == body[0];
    StripKeepsInterior(IsSpace, cut, 0, n, |cut| - 1);
  }

  lemma HeadedSettled(body: string, maxChars: int)
    requires |body| > |HEADER| && body[..|HEADER| + 1] == HEADER + "-"
    ensures MarkdownSettled(Strip(TruncateText(body, maxChars)))
  {
    hide StripBy, NoEscapedBreaks;
    var cut := TruncateText(body, maxChars);
    assert body[..|HEADER| + 1][0] == 'S' && body[..|HEADER| + 1][8] == '\n' && body[..|HEADER| + 1][9] == '-';
    if |body| > maxChars > |SUFFIX| {
      SuffixSettled(body, maxChars);
    } else if |cut| > |HEADER| {
      assert cut[0] == body[0] && cut[8] == body[8] && cut[9] == body[9];
      StripKeepsInterior(IsSpace, cut, 0, 8, 9);
    } else {
      assert cut == HEADER[..|cut|] by {
        forall i | 0 <= i < |cut| ensures cut[i] == HEADER[i] {
          assert cut[i] == body[i] == body[..|HEADER| + 1][i];
        }
      }
      NoBackslashSettled(cut);
    }
  }

  lemma FillerSettled(body: string, maxChars: int)
    requires Stripped(body) && body != "" && All(IsFiller, body)
    ensures MarkdownSettled(Strip(TruncateText(body, maxChars)))
  {
    hide StripBy, NoEscapedBreaks;
    if |body| > maxChars > |SUFFIX| {
      SuffixSettled(body, maxChars);
    } else {
      NoBackslashSettled(TruncateText(body, maxChars));
    }
  }

  lemma NoBackslashSettled(cut: string)
    requires '\\' !in cut
    ensures MarkdownSettled(Strip(cut))
  {
    hide StripBy;
    var lo := StripIsInfix(IsSpace, cut);
    assert forall i :: 0 <= i < |Strip(cut)| ==> Strip(cut)[i] == cut[lo + i];
  }

  /** The comment field: budgeted, normalised markdown. */
  function BudgetMarkdown(lim: Limits, v: string): string {
    BudgetText(NormalizeMarkdown(v), lim.commentMax, lim.commentMax)
  }

  /** Normalising then budgeting a comment twice is doing it once, although normalising alone is not idempotent. */
  lemma BudgetMarkdownIdempotent(lim: Limits, v: string)
    ensures BudgetMarkdown(lim, BudgetMarkdown(lim, v)) == BudgetMarkdown(lim, v)
  {
    hide StripBy, CountEscapedBreaks, Unescape, ApplyPromptBudget;
    var z, max := NormalizeMarkdown(v), lim.commentMax;
    var t, y := Strip(z), BudgetMarkdown(lim, v);
    if t == "" {
    } else if |t| > max {
      var body := OverBudgetForm(z, max, max);
      CutSettled(body, max);
      SettledUnchanged(y);
    } else {
      assert y == t by { BudgetKept(t, max, max); }
      if z != Strip(v) {
        UnescapeLeavesNone(Strip(v));
        StripKeepsNoEscape(z);
        SettledUnchanged(t);
      }
    }
    BudgetTextIdempotent(z, max, max);
  }

  lemma StripKeepsNoEscape(s: string)
    requires NoEscapedBreaks(s)
    ensures NoEscapedBreaks(Strip(s))
  {
    hide StripBy;
    var lo := StripIsInfix(IsSpace, s);
    assert forall i :: 0 <= i < |Strip(s)| ==> Strip(s)[i] == s[lo + i];
  }

  lemma EscapedBreakCounted(s: string)
    requires |s| >= 2 && s[0] == '\\' && s[1] == 'n'
    ensures CountEscapedBreaks(s) == 1 + CountEscapedBreaks(s[2..])
  {
    LongBreakStarts(s);
    PairAtHead(s, '\\', 'r');
    PairAtHead(s, '\\', 'n');
  }

  lemma {:induction false} NothingToReplace(s: string)
    requires 'r' !in s
    ensures Replace(s, "\\r\\n", "\n") == s
  {
    if s != "" {
      LongBreakStarts(s);
      PairAtHead(s, '\\', 'r');
      NothingToReplace(s[1..]);
    }
  }

  lemma TwoBreaksUnescaped()
    ensures Unescape("\\n\\na") == "\n\na"
  {
    hide IsSpace;
    var v := "\\n\\na";
    assert v[..2] == v[2..][..2] == "\\n" && v[2..][2..] == "a";
    NothingToReplace(v);
    TwoReplaced(v);
    NothingElseReplaced();
  }

  lemma TwoReplaced(v: string)
    requires v == "\\n\\na"
    ensures Replace(v, "\\n", "\n") == "\n\na"
  {
    assert v[..2] == v[2..][..2] == "\\n" && v[2..][2..] == "a";
    assert Replace("a", "\\n", "\n") == "a";
    assert Replace(v[2..], "\\n", "\n") == "\na";
  }

  lemma NothingElseReplaced()
    ensures Replace("\n\na", "\\r", "\n") == "\n\na" && Replace("\n\na", "\\t", "\t") == "\n\na"
  {
  }

  /** Normalising alone is stable after one pass exactly when nothing is unescaped or the unescaped text neither starts
      nor ends with whitespace. */
  lemma NormalizeMarkdownStableIff(v: string)
    ensures NormalizeMarkdown(NormalizeMarkdown(v)) == NormalizeMarkdown(v) <==>
            !ShouldUnescape(Strip(v)) || Stripped(Unescape(Strip(v)))
  {
    hide CountEscapedBreaks, Unescape, Contains, StripBy, Stripped;
    var text := Strip(v);
    if ShouldUnescape(text) {
      var r := Unescape(text);
      UnescapeLeavesNone(text);
      StripKeepsNoEscape(r);
      NoEscapesNoCount(Strip(r));
      assert NormalizeMarkdown(r) == Strip(r);
    }
  }

  /** Both happen: unescaping may put a line break first, which the next pass strips. */
  lemma NormalizeMarkdownNotIdempotent()
    ensures ShouldUnescape(Strip("\\n\\na")) && !Stripped(Unescape(Strip("\\n\\na")))
  {
    hide CountEscapedBreaks, Unescape, Contains, StripBy;
    var v, z := "\\n\\na", "\n\na";
    assert Stripped(v) && !HasLineBreak(v);
    EscapedBreakCounted(v);
    EscapedBreakCounted(v[2..]);
    TwoBreaksUnescaped();
  }

  // ----- findings -----

  function BudgetFinding(lim: Limits, item: string): (r: string)
    ensures Stripped(r)
  {
    BudgetText(item, lim.findingMax, Min(lim.contextMax, 180))
  }

  /** A non-empty finding that another budget pass leaves alone. */
  predicate SettledFinding(lim: Limits, f: string) {
    f != "" && BudgetFinding(lim, f) == f
  }

  function OneFinding(lim: Limits, item: string): (r: seq<string>)
    ensures |r| <= 1
    ensures forall f <- r :: SettledFinding(lim, f)
  {
    hide BudgetText;
    BudgetTextIdempotent(item, lim.findingMax, Min(lim.contextMax, 180));
    var f := BudgetFinding(lim, item);
    if f == "" then [] else [f]
  }

  /** The non-empty budgeted findings, in order. */
  function KeptFindings(lim: Limits, items: seq<string>): (r: seq<string>)
    ensures forall f <- r :: SettledFinding(lim, f)
  {
    if items == [] then []
    else KeptFindings(lim, items[..|items| - 1]) + OneFinding(lim, items[|items| - 1])
  }

  function OmissionMarker(omitted: nat): (r: string)
    ensures Stripped(r) && r != ""
  {
    "... " + Dec(omitted) + " additional finding(s) omitted for budget."
  }

  function CapFindings(lim: Limits, findings: seq<string>): seq<string> {
    if |findings| > lim.findingsMaxItems then
      findings[..lim.findingsMaxItems] + [OmissionMarker(|findings| - lim.findingsMaxItems)]
    else findings
  }

  /** The items a findings value is read as, printed. */
  function FindingItems(v: Raw): seq<string> {
    match v
    case Missing => []
    case Null => []
    case Lst(items, _) => ShownAll(items)
    case _ => [Shown(v)]
  }

  function ShownAll(items: seq<Raw>): (r: seq<string>)
    ensures |r| == |items|
    ensures forall i :: 0 <= i < |r| ==> r[i] == Shown(items[i])
  {
    seq(|items|, i requires 0 <= i < |items| => Shown(items[i]))
  }

  function FindingsOf(lim: Limits, items: seq<string>): seq<string> {
    CapFindings(lim, KeptFindings(lim, items))
  }

  /** What the findings keep: the non-empty budgeted items in order, up to the cap, and how many are left out. */
  lemma FindingsMeaning(lim: Limits, items: seq<string>, clean: string -> string)
    requires forall x :: clean(x) == BudgetText(x, lim.findingMax, Min(lim.contextMax, 180))
    ensures var kept, r, max := Cleaned(clean, items), FindingsOf(lim, items), lim.findingsMaxItems;
            if |kept| <= max then r == kept
            else r == kept[..max] + ["... " + Dec(|kept| - max) + " additional finding(s) omitted for budget."]
  {
    hide BudgetText, Dec;
    KeptCleaned(lim, items, clean);
  }

  lemma {:induction false} KeptCleaned(lim: Limits, items: seq<string>, clean: string -> string)
    requires forall x :: clean(x) == BudgetText(x, lim.findingMax, Min(lim.contextMax, 180))
    ensures KeptFindings(lim, items) == Cleaned(clean, items)
  {
    hide BudgetText;
    if items != [] {
      KeptCleaned(lim, items[..|items| - 1], clean);
    }
  }

  /** _normalize_findings, with its loop. */
  method NormalizeFindings(lim: Limits, v: Raw) returns (findings: seq<string>)
    ensures findings == FindingsOf(lim, FindingItems(v))
  {
    hide BudgetText, BudgetFinding, Shown, OmissionMarker, SettledFinding;
    findings := [];
    var items := FindingItems(v);
    for i := 0 to |items|
      invariant findings == KeptFindings(lim, items[..i])
    {
      assert items[..i + 1][..i] == items[..i];
      var finding := BudgetFinding(lim, items[i]);
      if finding != "" {
        findings := findings + [finding];
      }
    }
    assert items[..|items|] == items;
    findings := CapFindings(lim, findings);
  }

  lemma {:induction false} KeptFixed(lim: Limits, items: seq<string>)
    requires forall f <- items :: SettledFinding(lim, f)
    ensures KeptFindings(lim, items) == items
  {
    hide BudgetFinding;
    if items != [] {
      KeptFixed(lim, items[..|items| - 1]);
      assert SettledFinding(lim, items[|items| - 1]);
    }
  }

  /** A non-empty text survives its budget exactly when it fits or the summary may hold a character. */
  lemma BudgetTextNonempty(t: string, maxChars: int, summaryCap: int)
    requires Stripped(t) && t != ""
    ensures BudgetText(t, maxChars, summaryCap) != "" <==> |t| <= maxChars || Min(summaryCap, maxChars) >= 1
  {
    hide StripBy, Summary;
    if |t| > maxChars {
      var body := OverBudgetForm(t, maxChars, summaryCap);
      var m := Min(summaryCap, maxChars);
      if !All(IsFiller, body) {
        assert body[..|HEADER| + 1][0] == 'S';
      }
      TruncateHead(body, m);
      if m >= 1 {
        StripKeepsInterior(IsSpace, TruncateText(body, m), 0, 0, 0);
      }
    }
  }

  /** Normalising findings is stable from the second pass on, for every list and every budget, whether or not
      the omission marker fits its own budget. One pass is not enough: the marker counts as a finding. */
  lemma FindingsStableFromSecond(lim: Limits, items: seq<string>)
    ensures var once := FindingsOf(lim, items);
            var twice := FindingsOf(lim, once);
            FindingsOf(lim, twice) == twice
  {
    hide BudgetFinding, OmissionMarker, KeptFindings, SettledFinding;
    var kept, n := KeptFindings(lim, items), lim.findingsMaxItems;
    if |kept| <= n {
      KeptFixed(lim, kept);
    } else {
      var head, marker, single := kept[..n], OmissionMarker(|kept| - n), OmissionMarker(1);
      KeptFixed(lim, head);
      KeptSnoc(lim, head, marker);
      KeptSnoc(lim, head, single);
      MarkersAgree(lim, |kept| - n);
      if OneFinding(lim, marker) == [] {
        assert FindingsOf(lim, head + [marker]) == head;
      } else {
        assert FindingsOf(lim, head + [marker]) == head + [single];
        assert FindingsOf(lim, head + [single]) == head + [single];
      }
    }
  }

  lemma KeptSnoc(lim: Limits, head: seq<string>, last: string)
    ensures KeptFindings(lim, head + [last]) == KeptFindings(lim, head) + OneFinding(lim, last)
  {
    assert (head + [last])[..|head|] == head;
  }

  /** If some omission marker survives its budget then so does the one for a single item. */
  lemma MarkersAgree(lim: Limits, omitted: nat)
    requires omitted >= 1
    ensures BudgetFinding(lim, OmissionMarker(omitted)) != "" ==> BudgetFinding(lim, OmissionMarker(1)) != ""
  {
    hide BudgetText;
    assert |Dec(1)| == 1;
    BudgetTextNonempty(OmissionMarker(omitted), lim.findingMax, Min(lim.contextMax, 180));
    BudgetTextNonempty(OmissionMarker(1), lim.findingMax, Min(lim.contextMax, 180));
  }

  /** One pass is stable exactly for lists that fit, and for lists just one over the cap whose omission marker survives
      its own budget: any other marker is dropped, or rewritten to report a single finding. */
  lemma FindingsStableFromFirstIff(lim: Limits, items: seq<string>)
    ensures var kept, n := |KeptFindings(lim, items)|, lim.findingsMaxItems;
            FindingsOf(lim, FindingsOf(lim, items)) == FindingsOf(lim, items) <==>
            kept <= n || (kept == n + 1 && BudgetFinding(lim, OmissionMarker(1)) != "")
  {
    hide BudgetFinding, OmissionMarker, KeptFindings, SettledFinding;
    var kept, n := KeptFindings(lim, items), lim.findingsMaxItems;
    if |kept| <= n {
      KeptFixed(lim, kept);
    } else {
      var head, marker := kept[..n], OmissionMarker(|kept| - n);
      KeptFixed(lim, head);
      KeptSnoc(lim, head, marker);
      if OneFinding(lim, marker) == [] {
        assert FindingsOf(lim, head + [marker]) == head;
      } else {
        assert FindingsOf(lim, head + [marker]) == head + [OmissionMarker(1)];
        assert (head + [OmissionMarker(1)])[n] == OmissionMarker(1) && (head + [marker])[n] == marker;
        if marker == OmissionMarker(1) {
          MarkersDiffer(|kept| - n, 1);
        }
      }
      MarkersAgree(lim, |kept| - n);
    }
  }

  lemma MarkersDiffer(m: nat, n: nat)
    requires OmissionMarker(m) == OmissionMarker(n)
    ensures m == n
  {
    hide Dec;
    ParseDec(m);
    ParseDec(n);
    var a, b := OmissionMarker(m), OmissionMarker(n);
    assert a[4..4 + |Dec(m)|] == Dec(m);
    assert b[4..4 + |Dec(n)|] == Dec(n);
  }

  // ----- effort -----

  type Effort = seq<(string, string)>

  /** d[key] = value on an insertion-ordered dictionary. */
  function Put(d: Effort, key: string, value: string): Effort {
    if d == [] then [(key, value)]
    else if d[0].0 == key then [(key, value)] + d[1..]
    else [d[0]] + Put(d[1..], key, value)
  }

  function EffortKey(task: string): string {
    BudgetText(BudgetToken(task, 80), 80, 80)
  }

  function EffortText(lim: Limits, effort: string): string {
    BudgetText(effort, lim.effortValueMax, Min(lim.contextMax, 160))
  }

  function AddEffort(lim: Limits, d: Effort, task: string, effort: string): Effort {
    var key, text := EffortKey(task), EffortText(lim, effort);
    if key != "" && text != "" then Put(d, key, text) else d
  }

  function EffortFrom(lim: Limits, entries: seq<(string, string)>): Effort {
    if entries == [] then []
    else
      var last := entries[|entries| - 1];
      AddEffort(lim, EffortFrom(lim, entries[..|entries| - 1]), last.0, last.1)
  }

  function FirstEntries<T>(entries: seq<T>, n: nat): (r: seq<T>)
    ensures |r| <= n
  {
    if |entries| <= n then entries else entries[..n]
  }

  /** The entries an effort value is read as, printed. */
  function EffortEntries(v: Raw): seq<(string, string)> {
    match v
    case Obj(entries, _) =>
      seq(|entries|, i requires 0 <= i < |entries| => (entries[i].0, Shown(entries[i].1)))
    case _ => []
  }

  function EffortOf(lim: Limits, entries: seq<(string, string)>): Effort {
    EffortFrom(lim, FirstEntries(entries, lim.effortMaxItems))
  }

  /** _normalize_effort_breakdown, with its loop. */
  method NormalizeEffortBreakdown(lim: Limits, v: Raw) returns (normalized: Effort)
    ensures normalized == EffortOf(lim, EffortEntries(v))
  {
    hide EffortKey, EffortText, Shown, Put;
    normalized := [];
    var entries := EffortEntries(v);
    var idx := 0;
    while idx < |entries|
      invariant 0 <= idx <= |entries| && idx <= lim.effortMaxItems
      invariant normalized == EffortFrom(lim, entries[..idx])
    {
      if idx >= lim.effortMaxItems {
        return;
      }
      var (task, effort) := entries[idx];
      var key := EffortKey(task);
      var text := EffortText(lim, effort);
      assert entries[..idx + 1][..idx] == entries[..idx];
      if key != "" && text != "" {
        normalized := Put(normalized, key, text);
      }
      idx := idx + 1;
    }
    assert entries[..idx] == entries;
  }

  /** The i-th entry writes this key: its task is normalised to it and its effort is not empty. */
  predicate Gives(lim: Limits, entries: seq<(string, string)>, i: nat, key: string)
    requires i < |entries|
  {
    key != "" && EffortKey(entries[i].0) == key && EffortText(lim, entries[i].1) != ""
  }

  /** The i-th entry is the last of the first n to write the key. */
  ghost predicate LastGiven(lim: Limits, entries: seq<(string, string)>, n: nat, i: nat, key: string) {
    i < n <= |entries| && Gives(lim, entries, i, key) && forall j :: i < j < n ==> !Gives(lim, entries, j, key)
  }

  /** The last of the first n entries to write the key writes this text. */
  ghost predicate Holds(lim: Limits, entries: seq<(string, string)>, n: nat, key: string, text: string) {
    exists i: nat :: LastGiven(lim, entries, n, i, key) && EffortText(lim, entries[i].1) == text
  }

  /** What an effort map holds under a key: the text of the last entry within the cap that writes it, if one does. */
  lemma EffortMeaning(lim: Limits, entries: seq<(string, string)>, key: string, text: string)
    ensures var n := if |entries| < lim.effortMaxItems then |entries| else lim.effortMaxItems;
            (key, text) in EffortOf(lim, entries) <==> Holds(lim, entries, n, key, text)
  {
    hide EffortKey, EffortText, Holds;
    var first := FirstEntries(entries, lim.effortMaxItems);
    EffortLast(lim, first, key, text);
    assert entries[..|entries|] == entries;
    HoldsFront(lim, entries, |first|, key, text);
  }

  lemma HoldsFront(lim: Limits, entries: seq<(string, string)>, n: nat, key: string, text: string)
    requires n <= |entries|
    ensures Holds(lim, entries[..n], n, key, text) <==> Holds(lim, entries, n, key, text)
  {
    hide EffortKey, EffortText;
    assert forall i :: 0 <= i < n ==> (Gives(lim, entries[..n], i, key) <==> Gives(lim, entries, i, key));
    assert forall i: nat :: LastGiven(lim, entries[..n], n, i, key) <==> LastGiven(lim, entries, n, i, key);
  }

  lemma HoldsSnoc(lim: Limits, entries: seq<(string, string)>, n: nat, key: string, text: string)
    requires n < |entries|
    ensures Holds(lim, entries, n + 1, key, text) <==>
            if Gives(lim, entries, n, key) then text == EffortText(lim, entries[n].1)
            else Holds(lim, entries, n, key, text)
  {
    hide Gives, EffortText;
    var m := n + 1;
    if Gives(lim, entries, n, key) {
      assert LastGiven(lim, entries, m, n, key);
      assert forall i: nat :: LastGiven(lim, entries, m, i, key) ==> i == n;
    } else {
      assert forall i: nat :: LastGiven(lim, entries, m, i, key) <==> LastGiven(lim, entries, n, i, key);
    }
  }

  lemma {:induction false} EffortLast(lim: Limits, entries: seq<(string, string)>, key: string, text: string)
    ensures UniqueKeys(EffortFrom(lim, entries))
    ensures (key, text) in EffortFrom(lim, entries) <==> Holds(lim, entries, |entries|, key, text)
  {
    hide EffortKey, EffortText, Put, Holds, UniqueKeys;
    if entries == [] {
      NothingHeld(lim, key, text);
    } else {
      var n := |entries| - 1;
      var front, last := entries[..n], entries[n];
      EffortLast(lim, front, key, text);
      HoldsFront(lim, entries, n, key, text);
      HoldsSnoc(lim, entries, n, key, text);
      PutHolds(EffortFrom(lim, front), EffortKey(last.0), EffortText(lim, last.1), key, text);
    }
  }

  lemma NothingHeld(lim: Limits, key: string, text: string)
    ensures UniqueKeys([]) && !Holds(lim, [], 0, key, text)
  {
  }

  /** Writing a key replaces its value and leaves the other keys alone. */
  lemma {:induction false} PutHolds(d: Effort, k: string, v: string, key: string, text: string)
    requires UniqueKeys(d)
    ensures UniqueKeys(Put(d, k, v)) && KeySet(Put(d, k, v)) == KeySet(d) + {k}
    ensures (key, text) in Put(d, k, v) <==> if key == k then text == v else (key, text) in d
  {
    KeysListed(d);
    if d != [] && d[0].0 != k {
      PutHolds(d[1..], k, v, key, text);
      assert Put(d, k, v)[1..] == Put(d[1..], k, v);
    } else if d != [] {
      assert Put(d, k, v)[1..] == d[1..];
      KeysListed(d[1..]);
    }
  }

  lemma {:induction false} KeysListed(d: Effort)
    ensures forall e <- d :: e.0 in KeySet(d)
  {
    if d != [] {
      KeysListed(d[1..]);
    }
  }

  predicate SettledEffort(lim: Limits, e: (string, string)) {
    && e.0 != "" && EffortKey(e.0) == e.0
    && e.1 != "" && EffortText(lim, e.1) == e.1
  }

  function KeySet(d: Effort): set<string> {
    if d == [] then {} else {d[0].0} + KeySet(d[1..])
  }

  predicate UniqueKeys(d: Effort) {
    d == [] || (d[0].0 !in KeySet(d[1..]) && UniqueKeys(d[1..]))
  }

  /** Effort entries that another pass leaves alone, under distinct keys. */
  predicate EffortSettled(lim: Limits, d: Effort) {
    UniqueKeys(d) && forall e <- d :: SettledEffort(lim, e)
  }

  lemma {:induction false} PutKeys(d: Effort, key: string, value: string)
    requires UniqueKeys(d)
    ensures var r := Put(d, key, value);
            && UniqueKeys(r)
            && KeySet(r) == KeySet(d) + {key}
            && |r| <= |d| + 1
            && (key !in KeySet(d) ==> r == d + [(key, value)])
  {
    if d != [] && d[0].0 != key {
      PutKeys(d[1..], key, value);
    }
  }

  lemma {:induction false} PutValues(lim: Limits, d: Effort, key: string, value: string)
    requires SettledEffort(lim, (key, value))
    requires forall e <- d :: SettledEffort(lim, e)
    ensures forall e <- Put(d, key, value) :: SettledEffort(lim, e)
  {
    hide SettledEffort;
    if d != [] && d[0].0 != key {
      PutValues(lim, d[1..], key, value);
    }
  }

  lemma {:induction false} UniqueSnoc(d: Effort, last: (string, string))
    requires UniqueKeys(d + [last])
    ensures UniqueKeys(d) && last.0 !in KeySet(d)
    ensures KeySet(d + [last]) == KeySet(d) + {last.0}
  {
    if d != [] {
      assert (d + [last])[1..] == d[1..] + [last];
      UniqueSnoc(d[1..], last);
    }
  }

  lemma EffortPartsSettled(lim: Limits, task: string, effort: string)
    ensures EffortKey(EffortKey(task)) == EffortKey(task)
    ensures EffortText(lim, EffortText(lim, effort)) == EffortText(lim, effort)
  {
    hide BudgetToken, BudgetText;
    BudgetTokenShape(task, 80);
    TokenBudgeted(BudgetToken(task, 80));
    BudgetTokenIdempotent(task, 80);
    BudgetTextIdempotent(effort, lim.effortValueMax, Min(lim.contextMax, 160));
  }

  lemma TokenBudgeted(s: string)
    requires IsToken(s, 80)
    ensures BudgetText(s, 80, 80) == s
  {
    hide StripBy, Summary;
  }

  lemma {:induction false} EffortIsSettled(lim: Limits, entries: seq<(string, string)>)
    ensures EffortSettled(lim, EffortFrom(lim, entries))
    ensures |EffortFrom(lim, entries)| <= |entries|
  {
    hide EffortKey, EffortText;
    if entries != [] {
      var before, last := EffortFrom(lim, entries[..|entries| - 1]), entries[|entries| - 1];
      EffortIsSettled(lim, entries[..|entries| - 1]);
      EffortPartsSettled(lim, last.0, last.1);
      var key, text := EffortKey(last.0), EffortText(lim, last.1);
      if key != "" && text != "" {
        PutKeys(before, key, text);
        PutValues(lim, before, key, text);
      }
    }
  }

  lemma {:induction false} SettledEffortUnchanged(lim: Limits, d: Effort)
    requires EffortSettled(lim, d)
    ensures EffortFrom(lim, d) == d
  {
    hide EffortKey, EffortText, Put;
    if d != [] {
      var init, last := d[..|d| - 1], d[|d| - 1];
      assert d == init + [last];
      UniqueSnoc(init, last);
      SettledEffortUnchanged(lim, init);
      assert SettledEffort(lim, last);
      PutKeys(init, last.0, last.1);
    }
  }

  /** Normalising an effort breakdown twice is normalising it once, even when truncated keys collide. */
  lemma EffortIdempotent(lim: Limits, entries: seq<(string, string)>)
    ensures EffortOf(lim, EffortOf(lim, entries)) == EffortOf(lim, entries)
  {
    EffortIsSettled(lim, FirstEntries(entries, lim.effortMaxItems));
    SettledEffortUnchanged(lim, EffortOf(lim, entries));
  }
}
