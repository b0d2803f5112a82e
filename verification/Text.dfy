/** Python string primitives used by the core: whitespace, strip, whitespace collapsing,
    ASCII lower-casing, decimal printing and parsing, and colon-separated keys. */
module Text {
  datatype Option<+T> = None | Some(value: T)

  /** The characters str.isspace() and the regular expression \s accept. */
  predicate IsSpace(c: char) {
    var n := c as int;
    || 9 <= n <= 13
    || 28 <= n <= 32
    || n == 133 || n == 160 || n == 5760
    || 8192 <= n <= 8202
    || n == 8232 || n == 8233 || n == 8239 || n == 8287 || n == 12288
  }

  // ----- strip -----

  function LStripBy(p: char -> bool, s: string): (r: string)
    ensures |r| <= |s| && r == s[|s| - |r|..]
    ensures r == "" || !p(r[0])
  {
    if s == "" || !p(s[0]) then s
    else
      var rest := LStripBy(p, s[1..]);
      assert s[1..][|s| - 1 - |rest|..] == s[|s| - |rest|..];
      rest
  }

  function RStripBy(p: char -> bool, s: string): (r: string)
    ensures |r| <= |s| && r == s[..|r|]
    ensures r == "" || !p(r[|r| - 1])
    ensures s != "" && !p(s[|s| - 1]) ==> r == s
  {
    if s != "" && p(s[|s| - 1]) then RStripBy(p, s[..|s| - 1]) else s
  }

  /** Neither end of `s` satisfies `p`. */
  predicate StrippedBy(p: char -> bool, s: string) {
    s == "" || (!p(s[0]) && !p(s[|s| - 1]))
  }

  function StripBy(p: char -> bool, s: string): (r: string)
    ensures StrippedBy(p, r)
    ensures StrippedBy(p, s) ==> r == s
    ensures |r| <= |s|
  {
    var left := LStripBy(p, s);
    assert StrippedBy(p, s) ==> left == s;
    RStripBy(p, left)
  }

  predicate IsAt(c: char) { c == '@' }

  /** str.strip() */
  function Strip(s: string): (r: string)
    ensures Stripped(r)
    ensures Stripped(s) ==> r == s
    ensures |r| <= |s|
  {
    StripBy(IsSpace, s)
  }

  predicate Stripped(s: string) {
    StrippedBy(IsSpace, s)
  }

  /** Every character of `s` satisfies `p`. */
  ghost predicate All(p: char -> bool, s: string) {
    forall i :: 0 <= i < |s| ==> p(s[i])
  }

  lemma {:induction false} LStripDrops(p: char -> bool, s: string)
    ensures forall i :: 0 <= i < |s| - |LStripBy(p, s)| ==> p(s[i])
  {
    if s != "" && p(s[0]) {
      LStripDrops(p, s[1..]);
      forall i | 1 <= i < |s| - |LStripBy(p, s)| ensures p(s[i]) {
        assert s[i] == s[1..][i - 1];
      }
    }
  }

  lemma {:induction false} RStripDrops(p: char -> bool, s: string)
    ensures forall i :: |RStripBy(p, s)| <= i < |s| ==> p(s[i])
  {
    if s != "" && p(s[|s| - 1]) {
      RStripDrops(p, s[..|s| - 1]);
      forall i | |RStripBy(p, s)| <= i < |s| ensures p(s[i]) {
        assert i < |s| - 1 ==> s[i] == s[..|s| - 1][i];
      }
    }
  }

  /** A stripped string is a contiguous part of the original, and only characters of `p` go. */
  lemma StripIsInfix(p: char -> bool, s: string) returns (lo: nat)
    ensures lo + |StripBy(p, s)| <= |s|
    ensures StripBy(p, s) == s[lo..lo + |StripBy(p, s)|]
    ensures forall i :: 0 <= i < |s| && !(lo <= i < lo + |StripBy(p, s)|) ==> p(s[i])
  {
    hide LStripBy, RStripBy;
    var left := LStripBy(p, s);
    lo := |s| - |left|;
    var r := RStripBy(p, left);
    assert r == left[..|r|] == s[lo..][..|r|] == s[lo..lo + |r|];
    LStripDrops(p, s);
    RStripDrops(p, left);
    forall i | lo + |r| <= i < |s| ensures p(s[i]) {
      assert s[i] == left[i - lo];
    }
  }

  /** Stripping keeps every character that lies between two characters outside `p`. */
  lemma StripKeepsInterior(p: char -> bool, s: string, lo: nat, k: nat, hi: nat)
    requires lo <= k <= hi < |s|
    requires !p(s[lo]) && !p(s[hi])
    ensures s[k] in StripBy(p, s)
  {
    hide StripBy;
    var at := StripIsInfix(p, s);
    assert StripBy(p, s)[k - at] == s[k];
  }

  /** Stripping leaves nothing exactly when every character is in `p`. */
  lemma StripEmptyIff(p: char -> bool, s: string)
    ensures StripBy(p, s) == "" <==> All(p, s)
  {
    hide StripBy;
    var lo := StripIsInfix(p, s);
    if StripBy(p, s) != "" {
      assert StripBy(p, s)[0] == s[lo];
    }
  }

  // ----- whitespace collapsing -----

  /** re.sub(r"\s+", " ", s) */
  function Collapse(s: string): (r: string)
    ensures |r| <= |s|
    decreases |s|
  {
    if s == "" then ""
    else if IsSpace(s[0]) then " " + Collapse(LStripBy(IsSpace, s))
    else [s[0]] + Collapse(s[1..])
  }

  /** A whitespace character at `i` is a blank that no other whitespace follows. */
  predicate SpaceAlone(s: string, i: nat)
    requires i < |s|
  {
    IsSpace(s[i]) ==> s[i] == ' ' && (i + 1 < |s| ==> !IsSpace(s[i + 1]))
  }

  /** The only whitespace is single blanks. */
  ghost predicate Collapsed(s: string) {
    forall i {:trigger SpaceAlone(s, i)} :: 0 <= i < |s| ==> SpaceAlone(s, i)
  }

  lemma {:induction false} CollapseIsCollapsed(s: string)
    ensures Collapsed(Collapse(s))
    ensures s != "" ==> Collapse(s) != "" && IsSpace(Collapse(s)[0]) == IsSpace(s[0])
    decreases |s|
  {
    if s != "" {
      var rest := if IsSpace(s[0]) then LStripBy(IsSpace, s) else s[1..];
      CollapseIsCollapsed(rest);
      var r, tail := Collapse(s), Collapse(rest);
      assert r[1..] == tail;
      forall i | 0 <= i < |r| ensures SpaceAlone(r, i) {
        if i > 0 {
          assert SpaceAlone(tail, i - 1);
          assert i + 1 < |r| ==> r[i + 1] == tail[i];
        }
      }
    }
  }

  lemma {:induction false} CollapseFixed(s: string)
    requires Collapsed(s)
    ensures Collapse(s) == s
  {
    if s != "" {
      CollapsedInfix(s, 1, |s|);
      assert s[1..|s|] == s[1..];
      CollapseFixed(s[1..]);
      if IsSpace(s[0]) {
        assert SpaceAlone(s, 0);
        assert LStripBy(IsSpace, s) == s[1..];
      }
    }
  }

  lemma CollapsedInfix(s: string, lo: nat, hi: nat)
    requires Collapsed(s) && lo <= hi <= |s|
    ensures Collapsed(s[lo..hi])
  {
    var t := s[lo..hi];
    forall i | 0 <= i < |t| ensures SpaceAlone(t, i) {
      assert SpaceAlone(s, lo + i);
    }
  }

  lemma StripKeepsCollapsed(s: string)
    requires Collapsed(s)
    ensures Collapsed(Strip(s))
  {
    hide StripBy, Collapse;
    var lo := StripIsInfix(IsSpace, s);
    CollapsedInfix(s, lo, lo + |Strip(s)|);
  }

  // ----- lower -----

  function LowerChar(c: char): char {
    if 'A' <= c <= 'Z' then ((c as int) + 32) as char else c
  }

  /** str.lower(), on the ASCII letters. */
  function Lower(s: string): (r: string)
    ensures |r| == |s|
    ensures forall i :: 0 <= i < |s| ==> r[i] == LowerChar(s[i])
  {
    seq(|s|, i requires 0 <= i < |s| => LowerChar(s[i]))
  }

  // ----- order -----

  /** Python's order on strings. */
  predicate Less(a: string, b: string) {
    b != "" && (a == "" || a[0] < b[0] || (a[0] == b[0] && Less(a[1..], b[1..])))
  }

  /** Up to i the strings agree, and there `a` ends or is smaller. */
  predicate LessAt(a: string, b: string, i: nat) {
    i <= |a| && i < |b| && a[..i] == b[..i] && (i < |a| ==> a[i] < b[i])
  }

  /** It is the order of dictionaries. */
  lemma {:induction false} LessIff(a: string, b: string)
    ensures Less(a, b) <==> exists i: nat :: LessAt(a, b, i)
  {
    hide LessAt;
    if a == "" || b == "" || a[0] != b[0] {
      FirstDiffers(a, b);
    } else {
      LessIff(a[1..], b[1..]);
      assert !LessAt(a, b, 0) by { NotAtStart(a, b); }
      forall i: nat | i > 0 ensures LessAt(a, b, i) <==> LessAt(a[1..], b[1..], i - 1) {
        LessShift(a, b, i);
      }
      if i: nat :| LessAt(a[1..], b[1..], i) {
        assert LessAt(a, b, i + 1);
      }
    }
  }

  lemma FirstDiffers(a: string, b: string)
    requires a == "" || b == "" || a[0] != b[0]
    ensures Less(a, b) <==> exists i: nat :: LessAt(a, b, i)
  {
    assert LessAt(a, b, 0) <==> Less(a, b) by { assert a[..0] == "" && b[..0] == ""; }
    forall i: nat ensures LessAt(a, b, i) ==> i == 0 {
      AgreeFirst(a, b, i);
    }
  }

  lemma AgreeFirst(a: string, b: string, i: nat)
    ensures LessAt(a, b, i) && i > 0 ==> a[0] == b[0]
  {
    assert LessAt(a, b, i) && i > 0 ==> a[..i][0] == b[..i][0];
  }

  lemma NotAtStart(a: string, b: string)
    requires a != "" && b != "" && a[0] == b[0]
    ensures !LessAt(a, b, 0)
  {
  }

  lemma LessShift(a: string, b: string, i: nat)
    requires a != "" && b != "" && a[0] == b[0] && i > 0
    ensures LessAt(a, b, i) <==> LessAt(a[1..], b[1..], i - 1)
  {
    if i <= |a| && i < |b| {
      assert a[..i] == [a[0]] + a[1..][..i - 1] && b[..i] == [b[0]] + b[1..][..i - 1];
      assert a[..i][1..] == a[1..][..i - 1] && b[..i][1..] == b[1..][..i - 1];
    }
  }

  /** Of two different strings exactly one is less. */
  lemma {:induction false} LessTotal(a: string, b: string)
    ensures Less(a, b) <==> a != b && !Less(b, a)
  {
    if a != "" && b != "" {
      LessTotal(a[1..], b[1..]);
      assert a == [a[0]] + a[1..] && b == [b[0]] + b[1..];
    }
  }

  /** What lies between two strings is above the smaller or below the larger. */
  lemma {:induction false} LessBetween(a: string, b: string, c: string)
    requires Less(a, c)
    ensures Less(a, b) || Less(b, c)
  {
    if a != "" && b != "" && a[0] == c[0] && a[0] == b[0] {
      LessBetween(a[1..], b[1..], c[1..]);
    }
  }

  // ----- words -----

  /** The maximal runs of characters that are no separators, `current` being the part of one already read. */
  function WordsFrom(sep: char -> bool, current: string, s: string): seq<string>
    decreases |s|
  {
    var closed := if current == "" then [] else [current];
    if s == "" then closed
    else if sep(s[0]) then closed + WordsFrom(sep, "", s[1..])
    else WordsFrom(sep, current + [s[0]], s[1..])
  }

  function Words(sep: char -> bool, s: string): seq<string> { WordsFrom(sep, "", s) }

  /** " ".join(words) */
  function JoinWords(words: seq<string>): string {
    if words == [] then "" else if |words| == 1 then words[0] else words[0] + " " + JoinWords(words[1..])
  }

  lemma {:induction false} WordsSnoc(sep: char -> bool, current: string, s: string, c: char)
    requires sep(c)
    ensures WordsFrom(sep, current, s + [c]) == WordsFrom(sep, current, s)
    decreases |s|
  {
    if s == "" {
      assert s + [c] == [c] && [c][1..] == "";
    } else {
      assert (s + [c])[1..] == s[1..] + [c];
      WordsSnoc(sep, if sep(s[0]) then "" else current + [s[0]], s[1..], c);
    }
  }

  /** The words when a character that is no separator follows: a new one, or the last one grown. */
  function Grown(words: seq<string>, c: char, starts: bool): seq<string> {
    if starts || words == [] then words + [[c]] else words[..|words| - 1] + [words[|words| - 1] + [c]]
  }

  /** It starts a word after a separator and extends the last one otherwise. */
  lemma {:induction false} WordsGrow(sep: char -> bool, current: string, s: string, c: char)
    requires !sep(c)
    ensures var starts := if s == "" then current == "" else sep(s[|s| - 1]);
            WordsFrom(sep, current, s + [c]) == Grown(WordsFrom(sep, current, s), c, starts)
            && (!starts ==> WordsFrom(sep, current, s) != [])
    decreases |s|
  {
    hide Grown;
    if s == "" {
      LastWord(sep, current, c);
    } else {
      assert (s + [c])[1..] == s[1..] + [c] && (s + [c])[0] == s[0];
      if sep(s[0]) {
        WordsGrow(sep, "", s[1..], c);
        var starts := if s[1..] == "" then true else sep(s[1..][|s[1..]| - 1]);
        GrownAfter(if current == "" then [] else [current], WordsFrom(sep, "", s[1..]), c, starts);
      } else {
        WordsGrow(sep, current + [s[0]], s[1..], c);
      }
    }
  }

  lemma LastWord(sep: char -> bool, current: string, c: char)
    requires !sep(c)
    ensures WordsFrom(sep, current, "" + [c]) == Grown(WordsFrom(sep, current, ""), c, current == "")
    ensures current != "" ==> WordsFrom(sep, current, "") != []
  {
    assert "" + [c] == [c] && [c][1..] == "";
    assert WordsFrom(sep, current, [c]) == [current + [c]];
    assert current == "" ==> current + [c] == [c];
  }

  lemma GrownAfter(closed: seq<string>, words: seq<string>, c: char, starts: bool)
    requires !starts ==> words != []
    ensures closed + Grown(words, c, starts) == Grown(closed + words, c, starts)
  {
  }

  lemma NoWords(sep: char -> bool)
    ensures Words(sep, "") == []
  {
  }

  lemma {:induction false} WordsLStrip(sep: char -> bool, s: string)
    ensures Words(sep, LStripBy(sep, s)) == Words(sep, s)
  {
    if s != "" && sep(s[0]) {
      WordsLStrip(sep, s[1..]);
    }
  }

  lemma {:induction false} WordsRStrip(sep: char -> bool, s: string)
    ensures Words(sep, RStripBy(sep, s)) == Words(sep, s)
  {
    if s != "" && sep(s[|s| - 1]) {
      WordsRStrip(sep, s[..|s| - 1]);
      WordsSnoc(sep, "", s[..|s| - 1], s[|s| - 1]);
      assert s == s[..|s| - 1] + [s[|s| - 1]];
    }
  }

  /** Stripping separators changes no word. */
  lemma WordsStrip(sep: char -> bool, s: string)
    ensures Words(sep, StripBy(sep, s)) == Words(sep, s)
  {
    WordsLStrip(sep, s);
    WordsRStrip(sep, LStripBy(sep, s));
  }

  /** Neither does collapsing whitespace. */
  lemma {:induction false} WordsCollapse(current: string, s: string)
    ensures WordsFrom(IsSpace, current, Collapse(s)) == WordsFrom(IsSpace, current, s)
    decreases |s|
  {
    hide LStripBy;
    if s != "" {
      if IsSpace(s[0]) {
        var rest := LStripBy(IsSpace, s);
        SpaceShortens(s);
        WordsCollapse("", rest);
        WordsLStrip(IsSpace, s);
        assert Collapse(s)[0] == ' ' && Collapse(s)[1..] == Collapse(rest);
      } else {
        WordsCollapse(current + [s[0]], s[1..]);
        assert Collapse(s)[0] == s[0] && Collapse(s)[1..] == Collapse(s[1..]);
      }
    }
  }

  lemma SpaceShortens(s: string)
    requires s != "" && IsSpace(s[0])
    ensures |LStripBy(IsSpace, s)| < |s|
  {
  }

  lemma {:induction false} JoinedWords(current: string, s: string)
    requires Collapsed(s) && (s != "" ==> !IsSpace(s[|s| - 1]))
    requires current != "" || s == "" || !IsSpace(s[0])
    ensures JoinWords(WordsFrom(IsSpace, current, s)) == current + s
    decreases |s|
  {
    hide IsSpace;
    if s == "" {
      assert current + s == current;
    } else {
      CollapsedInfix(s, 1, |s|);
      assert s[1..|s|] == s[1..] && s == [s[0]] + s[1..];
      if IsSpace(s[0]) {
        assert SpaceAlone(s, 0);
        assert s[1..] != "" && s[1..][0] == s[1];
        JoinedWords("", s[1..]);
        var rest := WordsFrom(IsSpace, "", s[1..]);
        assert WordsFrom(IsSpace, current, s) == [current] + rest && ([current] + rest)[1..] == rest;
        assert current + " " + s[1..] == current + s;
      } else {
        JoinedWords(current + [s[0]], s[1..]);
        assert current + [s[0]] + s[1..] == current + s;
      }
    }
  }

  /** Collapsing and stripping gives the words joined by single blanks. */
  lemma SingleSpaced(s: string)
    ensures Strip(Collapse(s)) == JoinWords(Words(IsSpace, s))
    ensures Strip(Collapse(Strip(s))) == JoinWords(Words(IsSpace, s))
  {
    hide IsSpace, Collapse, StripBy;
    OneCollapsed(s);
    OneCollapsed(Strip(s));
    WordsStrip(IsSpace, s);
  }

  lemma OneCollapsed(s: string)
    ensures Strip(Collapse(s)) == JoinWords(Words(IsSpace, s))
  {
    hide IsSpace, Collapse, StripBy;
    var r := Strip(Collapse(s));
    CollapseIsCollapsed(s);
    StripKeepsCollapsed(Collapse(s));
    WordsStrip(IsSpace, Collapse(s));
    WordsCollapse("", s);
    JoinedWords("", r);
    assert "" + r == r;
  }

  // ----- decimal numbers -----

  const DIGITS := "0123456789"

  predicate IsDigit(c: char) { '0' <= c <= '9' }

  function Dec(n: nat): (r: string)
    ensures r != "" && forall i :: 0 <= i < |r| ==> IsDigit(r[i])
  {
    if n < 10 then [DIGITS[n]] else Dec(n / 10) + [DIGITS[n % 10]]
  }

  function IntText(n: int): (r: string)
    ensures r != "" && ':' !in r
  {
    if n < 0 then "-" + Dec(-n) else Dec(n)
  }

  function ParseDigits(s: string): Option<nat> {
    if s == "" then None
    else if !IsDigit(s[|s| - 1]) then None
    else
      var d := s[|s| - 1] as int - '0' as int;
      if |s| == 1 then Some(d)
      else match ParseDigits(s[..|s| - 1])
        case None => None
        case Some(n) => Some(10 * n + d)
  }

  /** int(s) on an optionally signed run of ASCII digits. */
  function ParseInt(s: string): Option<int> {
    var t := Strip(s);
    if t != "" && (t[0] == '-' || t[0] == '+') then
      match ParseDigits(t[1..])
      case None => None
      case Some(n) => Some((if t[0] == '-' then -1 else 1) * n)
    else
      match ParseDigits(t)
      case None => None
      case Some(n) => Some(n)
  }

  lemma {:induction false} ParseDec(n: nat)
    ensures ParseDigits(Dec(n)) == Some(n)
  {
    if n >= 10 {
      ParseDec(n / 10);
      assert Dec(n)[..|Dec(n)| - 1] == Dec(n / 10);
    }
  }

  /** int(str(n)) == n, so a printed number identifies the number it came from. */
  lemma ParsePrinted(n: int)
    ensures ParseInt(IntText(n)) == Some(n)
  {
    hide Dec, ParseDigits, StripBy;
    var t := IntText(n);
    DigitsStripped(t);
    ParseDec(if n < 0 then -n else n);
    if n < 0 {
      assert t[1..] == Dec(-n);
    }
  }

  lemma DigitsStripped(t: string)
    requires forall i :: 0 <= i < |t| ==> IsDigit(t[i]) || t[i] == '-'
    ensures Stripped(t)
  {
  }

  // ----- colon-separated keys -----

  /** Splitting at the first colon is unambiguous when the parts before it are colon-free. */
  lemma ColonSplit(a: string, b: string, c: string, d: string)
    requires ':' !in a && ':' !in c
    requires a + ":" + b == c + ":" + d
    ensures a == c && b == d
  {
    FirstColon(a, b);
    FirstColon(c, d);
    assert |a| == |c|;
    assert a == (a + ":" + b)[..|a|] == c;
    assert b == (a + ":" + b)[|a| + 1..] == d;
  }

  lemma FirstColon(a: string, b: string)
    requires ':' !in a
    ensures (a + ":" + b)[|a|] == ':'
    ensures forall i :: 0 <= i < |a| ==> (a + ":" + b)[i] != ':'
  {
  }

  /** Splitting at the last colon is unambiguous when the parts after it are colon-free. */
  lemma LastColonSplit(a: string, b: string, c: string, d: string)
    requires ':' !in b && ':' !in d
    requires a + ":" + b == c + ":" + d
    ensures a == c && b == d
  {
    LastColon(a, b);
    LastColon(c, d);
    assert |a| == |c|;
    assert a == (a + ":" + b)[..|a|] == c;
    assert b == (a + ":" + b)[|a| + 1..] == d;
  }

  lemma LastColon(a: string, b: string)
    requires ':' !in b
    ensures (a + ":" + b)[|a|] == ':'
    ensures forall i :: |a| < i < |a + ":" + b| ==> (a + ":" + b)[i] != ':'
  {
  }

  // ----- parts and listings -----

  predicate StartsWith(s: string, prefix: string) {
    |prefix| <= |s| && s[..|prefix|] == prefix
  }

  /** `part in s` */
  predicate Contains(s: string, part: string) {
    StartsWith(s, part) || (s != "" && Contains(s[1..], part))
  }

  /** The part stands somewhere in the string. */
  predicate StandsAt(s: string, part: string, i: nat) { i + |part| <= |s| && s[i..i + |part|] == part }

  lemma {:induction false} ContainsIff(s: string, part: string)
    ensures Contains(s, part) <==> exists i: nat :: StandsAt(s, part, i)
  {
    hide StandsAt, StartsWith;
    StandsFirst(s, part);
    if s != "" {
      ContainsIff(s[1..], part);
      forall i: nat ensures StandsAt(s, part, i + 1) <==> StandsAt(s[1..], part, i) {
        StandsLater(s, part, i);
      }
      forall i: nat ensures StandsAt(s, part, i) ==> i == 0 || StandsAt(s[1..], part, i - 1) {
        if i > 0 { StandsLater(s, part, i - 1); }
      }
    }
  }

  lemma StandsFirst(s: string, part: string)
    ensures StandsAt(s, part, 0) <==> StartsWith(s, part)
    ensures s == "" ==> forall i: nat :: StandsAt(s, part, i) ==> i == 0
  {
  }

  lemma StandsLater(s: string, part: string, i: nat)
    requires s != ""
    ensures StandsAt(s, part, i + 1) <==> StandsAt(s[1..], part, i)
  {
    if i + 1 + |part| <= |s| {
      assert s[i + 1..i + 1 + |part|] == s[1..][i..i + |part|];
    }
  }

  /** `order` lists the keys, each once, as iterating over a dictionary does. */
  ghost predicate Lists(order: seq<string>, keys: set<string>) {
    && (forall i, j :: 0 <= i < j < |order| ==> order[i] != order[j])
    && (forall key :: key in order <==> key in keys)
  }

  // ----- lists without repetition -----

  ghost predicate NoRepeats(items: seq<string>) {
    forall i, j :: 0 <= i < j < |items| ==> items[i] != items[j]
  }

  /** list(dict.fromkeys(items)): first occurrences, in order. */
  function Dedup(items: seq<string>): seq<string> {
    if items == [] then []
    else
      var before, last := Dedup(items[..|items| - 1]), items[|items| - 1];
      if last in before then before else before + [last]
  }

  lemma {:induction false} DedupSame(items: seq<string>)
    ensures NoRepeats(Dedup(items))
    ensures forall x :: x in Dedup(items) <==> x in items
    ensures NoRepeats(items) ==> Dedup(items) == items
  {
    if items != [] {
      var front, last := items[..|items| - 1], items[|items| - 1];
      DedupSame(front);
      assert items == front + [last];
      if NoRepeats(items) {
        assert forall i :: 0 <= i < |front| ==> front[i] == items[i];
        assert NoRepeats(front) && last !in front;
      }
    }
  }

  /** The i-th survivor is the first occurrence of its item, and i survivors precede it. */
  lemma {:induction false} DedupSource(items: seq<string>, i: nat) returns (at: nat)
    requires i < |Dedup(items)|
    ensures at < |items| && items[at] == Dedup(items)[i] && |Dedup(items[..at])| == i && items[at] !in items[..at]
  {
    var n := |items| - 1;
    var before := Dedup(items[..n]);
    DedupSame(items[..n]);
    if i < |before| {
      at := DedupSource(items[..n], i);
      assert items[..at] == items[..n][..at];
    } else {
      at := n;
    }
  }

  /** The non-empty results of cleaning the values, in order. */
  function Cleaned(clean: string -> string, values: seq<string>): seq<string> {
    if values == [] then []
    else
      var last := clean(values[|values| - 1]);
      Cleaned(clean, values[..|values| - 1]) + (if last == "" then [] else [last])
  }

  lemma {:induction false} CleanedFrom(clean: string -> string, values: seq<string>)
    ensures forall x :: x in Cleaned(clean, values) <==>
            x != "" && exists i :: 0 <= i < |values| && clean(values[i]) == x
  {
    if values != [] {
      var front, last := values[..|values| - 1], values[|values| - 1];
      CleanedFrom(clean, front);
      assert forall i :: 0 <= i < |front| ==> front[i] == values[i];
      assert values[|front|] == last;
    }
  }

  /** One more value cleaned and deduplicated, as the loops that build such lists do it. */
  lemma CleanedTurn(clean: string -> string, values: seq<string>, i: nat)
    requires i < |values|
    ensures var before, x := Dedup(Cleaned(clean, values[..i])), clean(values[i]);
            Dedup(Cleaned(clean, values[..i + 1])) == if x == "" || x in before then before else before + [x]
  {
    assert values[..i + 1][..i] == values[..i];
    var all := Cleaned(clean, values[..i]);
    assert all + [] == all;
    if clean(values[i]) != "" {
      assert (all + [clean(values[i])])[..|all|] == all;
    }
  }
}
