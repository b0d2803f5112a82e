/** The feature registry: a bounded, deduplicated list of records per project, with protected manual records. */
module FeatureRegistry {
  import opened Text

  // ----- titles -----

  /** What `[a-z0-9\s]` matches. */
  predicate IsKept(c: char) { 'a' <= c <= 'z' || '0' <= c <= '9' || IsSpace(c) }

  /** re.sub(r"[^a-z0-9\s]+", " ", s) */
  function ReplaceRuns(s: string): string {
    if s == "" then ""
    else
      var front, last := s[..|s| - 1], s[|s| - 1];
      if IsKept(last) then ReplaceRuns(front) + [last]
      else if front != "" && !IsKept(front[|front| - 1]) then ReplaceRuns(front)
      else ReplaceRuns(front) + " "
  }

  /** normalize_feature_title */
  function NormalizeTitle(title: string): string { Strip(Collapse(ReplaceRuns(Lower(Strip(title))))) }

  /** canonical_title_hash: a collision-free digest, represented by what it digests. */
  function TitleHash(title: string): string { NormalizeTitle(title) }

  predicate IsTitleBreak(c: char) { !IsKept(c) || IsSpace(c) }

  /** A title is normalised to its words: the maximal runs of English letters and digits, in lower case, joined by
      single blanks. */
  lemma TitleWords(title: string)
    ensures NormalizeTitle(title) == JoinWords(Words(IsTitleBreak, Lower(title)))
  {
    hide Lower, Strip, ReplaceRuns, WordsFrom, IsSpace, IsKept;
    var lower := Lower(Strip(title));
    SingleSpaced(ReplaceRuns(lower));
    ReplacedWords(lower);
    LowerStripped(title);
  }

  /** Both texts have the same words, and both or neither end in one. */
  ghost predicate SameWords(t: string, s: string) {
    && Words(IsSpace, t) == Words(IsTitleBreak, s)
    && (t == "" <==> s == "") && (s != "" ==> IsSpace(t[|t| - 1]) == IsTitleBreak(s[|s| - 1]))
  }

  lemma {:induction false} ReplacedWords(s: string)
    ensures SameWords(ReplaceRuns(s), s)
  {
    hide SameWords, IsKept;
    if s == "" {
      assert SameWords("", "") by { NothingSame(); }
    } else {
      var front, last := s[..|s| - 1], s[|s| - 1];
      assert s == front + [last];
      ReplacedWords(front);
      NextSame(ReplaceRuns(front), front, last);
    }
  }

  lemma NothingSame()
    ensures SameWords("", "")
  {
    NoWords(IsSpace);
    NoWords(IsTitleBreak);
  }

  /** What replacing does with one more character keeps the words. */
  lemma NextSame(t: string, s: string, c: char)
    requires SameWords(t, s)
    ensures SameWords(if IsKept(c) then t + [c] else if s != "" && !IsKept(s[|s| - 1]) then t else t + " ", s + [c])
  {
    hide Words, IsKept, IsSpace, IsTitleBreak;
    if IsTitleBreak(c) {
      BreakFollows(s, t, c);
      UnkeptBreaks(s);
    } else {
      WordFollows(s, t, c);
    }
  }

  lemma UnkeptBreaks(s: string)
    ensures s != "" && !IsKept(s[|s| - 1]) ==> IsTitleBreak(s[|s| - 1])
  {
  }

  lemma BreakFollows(s: string, t: string, c: char)
    requires IsTitleBreak(c) && Words(IsSpace, t) == Words(IsTitleBreak, s)
    ensures Words(IsTitleBreak, s + [c]) == Words(IsTitleBreak, s)
    ensures IsKept(c) ==> Words(IsSpace, t + [c]) == Words(IsSpace, t) && IsSpace(c)
    ensures Words(IsSpace, t + " ") == Words(IsSpace, t) && IsSpace(' ')
  {
    hide WordsFrom;
    WordsSnoc(IsTitleBreak, "", s, c);
    WordsSnoc(IsSpace, "", t, ' ');
    if IsKept(c) { WordsSnoc(IsSpace, "", t, c); }
  }

  lemma WordFollows(s: string, t: string, c: char)
    requires !IsTitleBreak(c) && Words(IsSpace, t) == Words(IsTitleBreak, s)
    requires (t == "" <==> s == "") && (s != "" ==> IsSpace(t[|t| - 1]) == IsTitleBreak(s[|s| - 1]))
    ensures IsKept(c) && !IsSpace(c) && Words(IsSpace, t + [c]) == Words(IsTitleBreak, s + [c])
  {
    hide WordsFrom, Grown;
    WordsGrow(IsTitleBreak, "", s, c);
    WordsGrow(IsSpace, "", t, c);
  }

  /** Lower-casing a stripped title changes no word: it neither makes nor removes whitespace. */
  lemma LowerStripped(title: string)
    ensures Words(IsTitleBreak, Lower(Strip(title))) == Words(IsTitleBreak, Lower(title))
  {
    hide WordsFrom, IsTitleBreak, Lower, StripBy;
    var lo := StripIsInfix(IsSpace, title);
    var mid := Strip(title);
    var head, tail := title[..lo], title[lo + |mid|..];
    assert title == head + mid + tail;
    LowerJoined(head, mid);
    LowerJoined(head + mid, tail);
    SpacesBreak(head);
    SpacesBreak(tail);
    SpacesAround(Lower(head), Lower(mid), Lower(tail));
  }

  lemma LowerJoined(a: string, b: string)
    ensures Lower(a + b) == Lower(a) + Lower(b)
  {
    hide LowerChar;
  }

  lemma SpacesBreak(s: string)
    requires forall i :: 0 <= i < |s| ==> IsSpace(s[i])
    ensures forall i :: 0 <= i < |Lower(s)| ==> IsTitleBreak(Lower(s)[i])
  {
  }

  lemma SpacesAround(head: string, mid: string, tail: string)
    requires forall i :: 0 <= i < |head| ==> IsTitleBreak(head[i])
    requires forall i :: 0 <= i < |tail| ==> IsTitleBreak(tail[i])
    ensures Words(IsTitleBreak, head + mid + tail) == Words(IsTitleBreak, mid)
  {
    BreaksBefore(head, mid);
    BreaksAfter(head + mid, tail);
  }

  lemma {:induction false} BreaksBefore(head: string, s: string)
    requires forall i :: 0 <= i < |head| ==> IsTitleBreak(head[i])
    ensures Words(IsTitleBreak, head + s) == Words(IsTitleBreak, s)
  {
    hide IsTitleBreak;
    if head == "" {
      assert head + s == s;
    } else {
      BreaksBefore(head[1..], s);
      assert (head + s)[0] == head[0] && (head + s)[1..] == head[1..] + s;
    }
  }

  lemma {:induction false} BreaksAfter(s: string, tail: string)
    requires forall i :: 0 <= i < |tail| ==> IsTitleBreak(tail[i])
    ensures Words(IsTitleBreak, s + tail) == Words(IsTitleBreak, s)
  {
    hide IsTitleBreak, WordsFrom;
    if tail == "" {
      assert s + tail == s;
    } else {
      var n := |tail| - 1;
      BreaksAfter(s, tail[..n]);
      assert s + tail == s + tail[..n] + [tail[n]];
      WordsSnoc(IsTitleBreak, "", s + tail[..n], tail[n]);
    }
  }

  /** A character that makes a title readable: an English letter or a digit. */
  predicate IsReadable(c: char) { IsKept(LowerChar(c)) && !IsSpace(c) }

  /** Exactly the titles without an English letter or a digit share the empty hash. */
  lemma UnreadableTitlesCollide(title: string)
    ensures TitleHash(title) == "" <==> forall i :: 0 <= i < |title| ==> !IsReadable(title[i])
  {
    hide StripBy, Collapse, ReplaceRuns, IsKept, IsSpace, LowerChar;
    var lo := StripIsInfix(IsSpace, title);
    var lower := Lower(Strip(title));
    assert forall i :: 0 <= i < |lower| ==> lower[i] == LowerChar(title[lo + i]);
    StripEmptyIff(IsSpace, Collapse(ReplaceRuns(lower)));
    if i :| 0 <= i < |title| && IsReadable(title[i]) {
      var c := lower[i - lo];
      StaysReadable(title[i]);
      KeptStay(lower, c);
      UncollapsedStay(ReplaceRuns(lower), c);
    } else {
      forall i | 0 <= i < |lower| ensures !IsKept(lower[i]) || IsSpace(lower[i]) {
        SpaceLowered(title[lo + i]);
      }
      OnlySpaces(lower);
      CollapseSpaces(ReplaceRuns(lower));
    }
  }

  lemma StaysReadable(c: char)
    requires IsReadable(c)
    ensures IsKept(LowerChar(c)) && !IsSpace(LowerChar(c))
  {
  }

  lemma SpaceLowered(c: char)
    requires !IsReadable(c)
    ensures !IsKept(LowerChar(c)) || IsSpace(LowerChar(c))
  {
  }

  lemma {:induction false} KeptStay(s: string, c: char)
    requires c in s && IsKept(c)
    ensures c in ReplaceRuns(s)
  {
    hide IsKept;
    var front, last := s[..|s| - 1], s[|s| - 1];
    assert s == front + [last];
    if c != last { KeptStay(front, c); }
  }

  lemma {:induction false} UncollapsedStay(s: string, c: char)
    requires c in s && !IsSpace(c)
    ensures c in Collapse(s)
    decreases |s|
  {
    hide IsSpace, LStripBy;
    var i :| 0 <= i < |s| && s[i] == c;
    if IsSpace(s[0]) {
      var rest := LStripBy(IsSpace, s);
      LStripDrops(IsSpace, s);
      assert rest[i - (|s| - |rest|)] == c;
      LeadingSpaceDropped(s);
      UncollapsedStay(rest, c);
      assert c in " " + Collapse(rest);
    } else if i > 0 {
      assert s[1..][i - 1] == c;
      UncollapsedStay(s[1..], c);
    }
  }

  lemma LeadingSpaceDropped(s: string)
    requires s != "" && IsSpace(s[0])
    ensures |LStripBy(IsSpace, s)| < |s|
  {
  }

  lemma {:induction false} OnlySpaces(s: string)
    requires forall i :: 0 <= i < |s| ==> !IsKept(s[i]) || IsSpace(s[i])
    ensures All(IsSpace, ReplaceRuns(s))
  {
    if s != "" {
      OnlySpaces(s[..|s| - 1]);
    }
  }

  lemma CollapseSpaces(s: string)
    requires All(IsSpace, s)
    ensures All(IsSpace, Collapse(s))
  {
    hide LStripBy;
    if s != "" {
      assert LStripBy(IsSpace, s) == "";
      assert Collapse(s) == " ";
    }
  }

  // ----- records -----

  datatype Record = Record(
    featureId: string, title: string, aliases: seq<string>, sourceIssue: string, sourcePr: string,
    implementedAt: int, updatedAt: int, hash: string, manual: bool)

  /** Index of the first record with the hash, or the number of records. */
  function Find(items: seq<Record>, hash: string): (i: nat)
    ensures i <= |items|
    ensures i < |items| ==> items[i].hash == hash
    ensures forall j :: 0 <= j < i ==> items[j].hash != hash
  {
    if items == [] then 0 else if items[0].hash == hash then 0 else 1 + Find(items[1..], hash)
  }

  /** The eviction order: newest first, then by feature id. */
  predicate Above(a: Record, b: Record) {
    a.updatedAt > b.updatedAt || (a.updatedAt == b.updatedAt && Less(b.featureId, a.featureId))
  }

  function Insert(sorted: seq<Record>, r: Record): seq<Record> {
    if sorted == [] || !Above(r, sorted[|sorted| - 1]) then sorted + [r]
    else Insert(sorted[..|sorted| - 1], r) + [sorted[|sorted| - 1]]
  }

  /** sort(key=(updated_at, feature_id), reverse=True) */
  function Sorted(items: seq<Record>): seq<Record> {
    if items == [] then [] else Insert(Sorted(items[..|items| - 1]), items[|items| - 1])
  }

  /** The record an update writes: the first implementation time and feature id stay. */
  function Updated(existing: Record, r: Record): Record {
    r.(implementedAt := existing.implementedAt,
        featureId := if existing.featureId != "" then existing.featureId else r.featureId)
  }

  /** A manual record stands in the way of an automatic one. */
  predicate Protected(items: seq<Record>, r: Record) {
    var i := Find(items, r.hash);
    i < |items| && items[i].manual && !r.manual
  }

  /** The list before eviction. */
  function Written(items: seq<Record>, r: Record): seq<Record> {
    var i := Find(items, r.hash);
    if i < |items| then items[i := Updated(items[i], r)] else items + [r]
  }

  function Evicted(items: seq<Record>, maxItems: nat): seq<Record> {
    var sorted := Sorted(items);
    if |items| <= maxItems then items else if |sorted| < maxItems then sorted else sorted[..maxItems]
  }

  /** upsert_record: the new list and the record returned. */
  function Upsert(items: seq<Record>, r: Record, maxItems: nat): (seq<Record>, Record) {
    var i := Find(items, r.hash);
    if Protected(items, r) then (items, items[i])
    else (Evicted(Written(items, r), maxItems), if i < |items| then Updated(items[i], r) else r)
  }

  /** delete_record's match. */
  predicate Matches(r: Record, ref: string) {
    || r.featureId == Strip(ref)
    || NormalizeTitle(r.title) == NormalizeTitle(ref)
    || exists k :: 0 <= k < |r.aliases| && NormalizeTitle(r.aliases[k]) == NormalizeTitle(ref)
  }

  function FirstWhere(items: seq<Record>, p: Record -> bool): (i: nat)
    ensures i <= |items|
    ensures i < |items| ==> p(items[i])
    ensures forall j :: 0 <= j < i ==> !p(items[j])
  {
    if items == [] then 0 else if p(items[0]) then 0 else 1 + FirstWhere(items[1..], p)
  }

  function FirstMatch(items: seq<Record>, ref: string): (i: nat)
    ensures i <= |items|
  {
    FirstWhere(items, r => Matches(r, ref))
  }

  /** delete_record: exactly the first match goes. */
  function Delete(items: seq<Record>, ref: string): seq<Record> {
    var i := FirstMatch(items, ref);
    if i == |items| then items else items[..i] + items[i + 1..]
  }

  /** The record a delete returns. */
  function Removed(items: seq<Record>, ref: string): Option<Record> {
    var i := FirstMatch(items, ref);
    if i == |items| then None else Some(items[i])
  }

  // ----- laws -----

  ghost predicate OnePerHash(items: seq<Record>) {
    forall i, j :: 0 <= i < j < |items| ==> items[i].hash != items[j].hash
  }

  /** A bounded list without duplicates, written before `now`. */
  ghost predicate Orderly(items: seq<Record>, maxItems: nat, now: int) {
    && |items| <= maxItems && OnePerHash(items)
    && forall r :: r in items ==> r.updatedAt < now
  }

  lemma {:induction false} InsertFacts(sorted: seq<Record>, r: Record)
    ensures |Insert(sorted, r)| == |sorted| + 1
    ensures forall x :: x in Insert(sorted, r) <==> x in sorted || x == r
    ensures OnePerHash(sorted) && (forall x :: x in sorted ==> x.hash != r.hash) ==> OnePerHash(Insert(sorted, r))
  {
    if !(sorted == [] || !Above(r, sorted[|sorted| - 1])) {
      var front, last := sorted[..|sorted| - 1], sorted[|sorted| - 1];
      assert sorted == front + [last];
      InsertFacts(front, r);
      if OnePerHash(sorted) && forall x :: x in sorted ==> x.hash != r.hash {
        assert last in sorted && forall x :: x in front ==> x.hash != last.hash && x in sorted;
        var inner := Insert(front, r);
        assert forall i :: 0 <= i < |inner| ==> inner[i] in inner;
      }
    }
  }

  lemma {:induction false} SortedFacts(items: seq<Record>)
    ensures |Sorted(items)| == |items|
    ensures forall x :: x in Sorted(items) <==> x in items
    ensures OnePerHash(items) ==> OnePerHash(Sorted(items))
  {
    if items != [] {
      var front, last := items[..|items| - 1], items[|items| - 1];
      assert items == front + [last];
      SortedFacts(front);
      InsertFacts(Sorted(front), last);
      if OnePerHash(items) {
        assert forall x :: x in front ==> x.hash != last.hash;
        assert OnePerHash(front);
      }
    }
  }

  /** In eviction order: newest first, and of equally new ones the larger id first. */
  ghost predicate InOrder(items: seq<Record>) {
    forall i, j :: 0 <= i < j < |items| ==> !Above(items[j], items[i])
  }

  lemma AboveOrders(a: Record, b: Record, c: Record)
    ensures !Above(a, b) && !Above(b, c) ==> !Above(a, c)
    ensures Above(a, b) ==> !Above(b, a)
  {
    hide Less;
    LessTotal(a.featureId, b.featureId);
    if Less(c.featureId, a.featureId) {
      LessBetween(c.featureId, b.featureId, a.featureId);
    }
  }

  lemma InOrderSnoc(items: seq<Record>, last: Record)
    requires InOrder(items) && forall x :: x in items ==> !Above(last, x)
    ensures InOrder(items + [last])
  {
    hide Above;
    assert forall i :: 0 <= i < |items| ==> (items + [last])[i] == items[i] && items[i] in items;
  }

  lemma {:induction false} InsertInOrder(sorted: seq<Record>, r: Record)
    requires InOrder(sorted)
    ensures InOrder(Insert(sorted, r))
  {
    hide Above;
    if sorted != [] {
      var front, last := sorted[..|sorted| - 1], sorted[|sorted| - 1];
      assert sorted == front + [last];
      assert forall x :: x in front ==> !Above(last, x);
      if Above(r, last) {
        InsertInOrder(front, r);
        InsertFacts(front, r);
        AboveOrders(r, last, last);
        InOrderSnoc(Insert(front, r), last);
      } else {
        forall x | x in sorted ensures !Above(r, x) {
          AboveOrders(r, last, x);
        }
        InOrderSnoc(sorted, r);
      }
    }
  }

  lemma {:induction false} SortedInOrder(items: seq<Record>)
    ensures InOrder(Sorted(items))
  {
    hide Above;
    if items != [] {
      SortedInOrder(items[..|items| - 1]);
      InsertInOrder(Sorted(items[..|items| - 1]), items[|items| - 1]);
    }
  }

  /** Writing without eviction: one record per hash stays, the written one is there, others are untouched. */
  lemma WrittenFacts(items: seq<Record>, r: Record)
    requires OnePerHash(items)
    ensures var w, i := Written(items, r), Find(items, r.hash);
            var saved := if i < |items| then Updated(items[i], r) else r;
            && OnePerHash(w) && |w| == (if i < |items| then |items| else |items| + 1)
            && saved in w && saved.hash == r.hash
            && (forall x :: x in w && x != saved ==> x in items && x.hash != r.hash)
            && (forall x :: x in items && x.hash != r.hash ==> x in w)
  {
    hide Find;
    var w, i := Written(items, r), Find(items, r.hash);
    assert i < |items| ==> w[i] == Updated(items[i], r);
    assert i == |items| ==> w[i] == r;
    forall x | x in items && x.hash != r.hash ensures x in w {
      var k :| 0 <= k < |items| && items[k] == x;
      assert w[k] == x;
    }
  }

  /** Eviction keeps as many records as the bound allows, none twice, and drops none that is newer than a kept one, or
      as new with a larger id. */
  lemma EvictionKeepsNewest(items: seq<Record>, maxItems: nat)
    requires OnePerHash(items)
    ensures var kept := Evicted(items, maxItems);
            && |kept| == (if |items| <= maxItems then |items| else maxItems)
            && OnePerHash(kept)
            && (forall x :: x in kept ==> x in items)
            && (forall x, y :: x in items && x !in kept && y in kept ==>
                  x.updatedAt < y.updatedAt || (x.updatedAt == y.updatedAt && !Less(y.featureId, x.featureId)))
  {
    hide Sorted, Less;
    SortedFacts(items);
    SortedInOrder(items);
    var sorted := Sorted(items);
    if |items| > maxItems {
      assert sorted == sorted[..maxItems] + sorted[maxItems..];
      assert forall i :: 0 <= i < maxItems ==> sorted[..maxItems][i] == sorted[i];
      forall x, y | x in items && x !in sorted[..maxItems] && y in sorted[..maxItems] ensures !Above(x, y) {
        assert x in sorted;
        var j :| 0 <= j < |sorted| && sorted[j] == x;
        var i :| 0 <= i < maxItems && sorted[i] == y;
      }
    }
  }

  /** Evicting from a list that is one too long drops one record: the oldest. */
  lemma EvictionDropsOldest(items: seq<Record>, maxItems: nat) returns (oldest: Record)
    requires OnePerHash(items) && |items| == maxItems + 1
    ensures oldest in items && oldest !in Evicted(items, maxItems) && |Evicted(items, maxItems)| == maxItems
    ensures OnePerHash(Evicted(items, maxItems))
    ensures forall x :: x in Evicted(items, maxItems) <==> x in items && x != oldest
    ensures forall x :: x in items ==> oldest.updatedAt <= x.updatedAt
  {
    hide Sorted;
    SortedFacts(items);
    EvictionKeepsNewest(items, maxItems);
    var sorted := Sorted(items);
    oldest := sorted[maxItems];
    assert sorted == sorted[..maxItems] + [oldest];
    assert oldest in sorted;
    assert forall i :: 0 <= i < maxItems ==> sorted[..maxItems][i] == sorted[i];
    assert forall x :: x in items <==> x in sorted[..maxItems] || x == oldest;
  }

  /** An upsert on an orderly registry: it stays orderly; a protected record stops it; otherwise the record just
      written is in the list with the first time and id of its title, and of the others at most one is gone, the
      oldest of a full list that had to make room. */
  lemma UpsertMeaning(items: seq<Record>, r: Record, maxItems: nat, now: int) returns (evicted: Option<Record>)
    requires Orderly(items, maxItems, r.updatedAt) && maxItems >= 1 && r.updatedAt < now
    ensures var (items', saved) := Upsert(items, r, maxItems);
            var i := Find(items, r.hash);
            && Orderly(items', maxItems, now)
            && saved in items' && saved.hash == r.hash
            && (Protected(items, r) ==> items' == items && saved == items[i])
            && (!Protected(items, r) && i == |items| ==> saved == r)
            && (!Protected(items, r) && i < |items| ==>
                  saved == r.(implementedAt := items[i].implementedAt,
                              featureId := if items[i].featureId == "" then r.featureId else items[i].featureId))
            && (forall x :: x in items' && x != saved ==> x in items && x.hash != r.hash)
            && (forall x :: x in items && x.hash != r.hash && Some(x) != evicted ==> x in items')
    ensures evicted.Some? ==>
              && |items| == maxItems && Find(items, r.hash) == |items|
              && evicted.value in items && evicted.value !in Upsert(items, r, maxItems).0
              && forall x :: x in items ==> evicted.value.updatedAt <= x.updatedAt
  {
    hide Find, Written, Evicted, Sorted;
    evicted := None;
    if Protected(items, r) { return; }
    var w, i := Written(items, r), Find(items, r.hash);
    WrittenFacts(items, r);
    UpdatedTime(items, r);
    if |w| > maxItems {
      var oldest := EvictionDropsOldest(w, maxItems);
      assert items != [] && items[0] in w by { assert items[0].hash != r.hash; }
      evicted := Some(oldest);
    } else {
      assert Evicted(w, maxItems) == w by { NothingEvicted(w, maxItems); }
    }
  }

  lemma NothingEvicted(items: seq<Record>, maxItems: nat)
    requires |items| <= maxItems
    ensures Evicted(items, maxItems) == items
  {
  }

  lemma UpdatedTime(items: seq<Record>, r: Record)
    ensures var i := Find(items, r.hash); i < |items| ==> Updated(items[i], r).updatedAt == r.updatedAt
  {
  }

  /** A title's record keeps its first implementation time and its feature id through an upsert that leaves the title in
      the list; a record does not change at all through one of another title, nor a manual one through an automatic
      one. */
  lemma OriginKept(items: seq<Record>, r: Record, maxItems: nat, x: Record, y: Record)
    requires Orderly(items, maxItems, r.updatedAt) && maxItems >= 1
    requires x in items && y in Upsert(items, r, maxItems).0 && x.hash == y.hash
    ensures y.implementedAt == x.implementedAt && (x.featureId != "" ==> y.featureId == x.featureId)
    ensures x.hash != r.hash || (x.manual && !r.manual) ==> y == x
  {
    hide Find, Written, Evicted, Sorted;
    var evicted := UpsertMeaning(items, r, maxItems, r.updatedAt + 1);
    var i := Find(items, r.hash);
    if x.hash == r.hash {
      var k :| 0 <= k < |items| && items[k] == x;
      assert i == k;
    } else {
      var k :| 0 <= k < |items| && items[k] == x;
    }
  }

  lemma MatchesIff(x: Record, ref: string)
    ensures Matches(x, ref) <==>
            || x.featureId == Strip(ref) || NormalizeTitle(x.title) == NormalizeTitle(ref)
            || exists alias <- x.aliases :: NormalizeTitle(alias) == NormalizeTitle(ref)
  {
    hide NormalizeTitle, Strip;
  }

  /** Deleting removes exactly the first match, or nothing when there is none, and keeps the registry orderly. */
  lemma DeleteMeaning(items: seq<Record>, ref: string, maxItems: nat, now: int)
    requires Orderly(items, maxItems, now)
    ensures Orderly(Delete(items, ref), maxItems, now)
    ensures |Delete(items, ref)| < |items| <==>
            exists x :: x in items &&
              (|| x.featureId == Strip(ref) || NormalizeTitle(x.title) == NormalizeTitle(ref)
               || exists alias <- x.aliases :: NormalizeTitle(alias) == NormalizeTitle(ref))
    ensures forall x :: x in Delete(items, ref) <==>
                          x in items && !(FirstMatch(items, ref) < |items| && x == items[FirstMatch(items, ref)])
  {
    hide Matches, FirstWhere, NormalizeTitle, Strip;
    var i, d := FirstMatch(items, ref), Delete(items, ref);
    forall x: Record
      ensures Matches(x, ref) <==>
              || x.featureId == Strip(ref) || NormalizeTitle(x.title) == NormalizeTitle(ref)
              || exists alias <- x.aliases :: NormalizeTitle(alias) == NormalizeTitle(ref)
    {
      MatchesIff(x, ref);
    }
    if i < |items| {
      assert forall k :: 0 <= k < |d| ==> d[k] == items[if k < i then k else k + 1];
      forall x | x in items && x != items[i] ensures x in d {
        var k :| 0 <= k < |items| && items[k] == x;
        assert d[if k < i then k else k - 1] == x;
      }
    }
  }

  // ----- runs -----

  datatype Op = UpsertOp(record: Record) | DeleteOp(ref: string)

  function Step(items: seq<Record>, op: Op, maxItems: nat): seq<Record> {
    match op
    case UpsertOp(r) => Upsert(items, r, maxItems).0
    case DeleteOp(ref) => Delete(items, ref)
  }

  function Run(ops: seq<Op>, maxItems: nat): seq<Record> {
    if ops == [] then [] else Step(Run(ops[..|ops| - 1], maxItems), ops[|ops| - 1], maxItems)
  }

  /** Upserts carry strictly increasing times, below `now`. */
  ghost predicate Ticking(ops: seq<Op>, now: int) {
    && (forall i :: 0 <= i < |ops| && ops[i].UpsertOp? ==> ops[i].record.updatedAt < now)
    && (forall i, j :: 0 <= i < j < |ops| && ops[i].UpsertOp? && ops[j].UpsertOp? ==>
          ops[i].record.updatedAt < ops[j].record.updatedAt)
  }

  /** Over every run from an empty registry, each title has at most one record and the bound holds. */
  lemma {:induction false} RunOrderly(ops: seq<Op>, maxItems: nat, now: int)
    requires Ticking(ops, now) && maxItems >= 1
    ensures Orderly(Run(ops, maxItems), maxItems, now)
  {
    hide Upsert, Delete;
    if ops != [] {
      var front, last := ops[..|ops| - 1], ops[|ops| - 1];
      assert ops == front + [last];
      match last
      case UpsertOp(r) =>
        RunOrderly(front, maxItems, r.updatedAt);
        var evicted := UpsertMeaning(Run(front, maxItems), r, maxItems, now);
      case DeleteOp(ref) =>
        RunOrderly(front, maxItems, now);
        DeleteMeaning(Run(front, maxItems), ref, maxItems, now);
    }
  }

  /** The record a run writes last is in the registry, or a manual record of its title is. */
  lemma JustWrittenSurvives(ops: seq<Op>, r: Record, maxItems: nat)
    requires Ticking(ops, r.updatedAt) && maxItems >= 1
    ensures var items := Run(ops + [UpsertOp(r)], maxItems);
            exists x :: x in items && x.hash == r.hash && (x.updatedAt == r.updatedAt || (x.manual && !r.manual))
  {
    hide Upsert, Find;
    RunOrderly(ops, maxItems, r.updatedAt);
    assert (ops + [UpsertOp(r)])[..|ops|] == ops;
    var items := Run(ops, maxItems);
    var evicted := UpsertMeaning(items, r, maxItems, r.updatedAt + 1);
    UpdatedTime(items, r);
    assert Upsert(items, r, maxItems).1 in Run(ops + [UpsertOp(r)], maxItems);
  }

  ghost predicate Listed(items: seq<Record>, hash: string) {
    exists i :: 0 <= i < |items| && items[i].hash == hash
  }

  /** Over every run: as long as a title stays in the list, through whatever upserts and deletes, its record keeps its
      first implementation time and its feature id. */
  lemma {:induction false} OriginKeptOverRun(ops: seq<Op>, maxItems: nat, now: int, m: nat, n: nat, x: Record,
                                             y: Record)
    requires Ticking(ops, now) && maxItems >= 1 && m <= n <= |ops|
    requires forall k :: m <= k <= n ==> Listed(Run(ops[..k], maxItems), x.hash)
    requires x in Run(ops[..m], maxItems) && y in Run(ops[..n], maxItems) && x.hash == y.hash && x.featureId != ""
    ensures y.implementedAt == x.implementedAt && y.featureId == x.featureId
  {
    hide Upsert, Delete, Run, Ticking, Listed, Orderly;
    TickingPrefix(ops, now, n);
    RunOrderly(ops[..n], maxItems, now);
    if m == n {
      SameRecord(Run(ops[..n], maxItems), maxItems, now, x, y);
    } else {
      var before := Run(ops[..n - 1], maxItems);
      assert Listed(before, x.hash);
      var i := ListedAt(before, x.hash);
      var z := before[i];
      OriginKeptOverRun(ops, maxItems, now, m, n - 1, x, z);
      StepOrigin(ops, maxItems, now, n, z, y);
    }
  }

  /** A manual record written for the title. */
  predicate Overrules(op: Op, hash: string) { op.UpsertOp? && op.record.hash == hash && op.record.manual }

  /** And as long as it stays in the list, a manual record stays exactly as it is, until another manual record is
      written for its title: no automatic upsert and no delete changes it. */
  lemma {:induction false} ManualKeptOverRun(ops: seq<Op>, maxItems: nat, now: int, m: nat, n: nat, x: Record,
                                             y: Record)
    requires Ticking(ops, now) && maxItems >= 1 && m <= n <= |ops|
    requires forall k :: m <= k <= n ==> Listed(Run(ops[..k], maxItems), x.hash)
    requires forall k :: m <= k < n ==> !Overrules(ops[k], x.hash)
    requires x in Run(ops[..m], maxItems) && y in Run(ops[..n], maxItems) && x.hash == y.hash && x.manual
    ensures y == x
  {
    hide Upsert, Delete, Run, Ticking, Listed, Orderly, Overrules;
    TickingPrefix(ops, now, n);
    RunOrderly(ops[..n], maxItems, now);
    if m == n {
      SameRecord(Run(ops[..n], maxItems), maxItems, now, x, y);
    } else {
      var before := Run(ops[..n - 1], maxItems);
      assert Listed(before, x.hash);
      var i := ListedAt(before, x.hash);
      ManualKeptOverRun(ops, maxItems, now, m, n - 1, x, before[i]);
      StepOrigin(ops, maxItems, now, n, x, y);
    }
  }

  /** Different records were written at different times. */
  ghost predicate TimesDiffer(items: seq<Record>) {
    forall x, y :: x in items && y in items && x.updatedAt == y.updatedAt ==> x == y
  }

  /** Over every run with rising times this holds. */
  lemma {:induction false} RunTimesDiffer(ops: seq<Op>, maxItems: nat, now: int)
    requires Ticking(ops, now) && maxItems >= 1
    ensures TimesDiffer(Run(ops, maxItems))
  {
    hide Upsert, Delete, Ticking, Find, FirstMatch;
    if ops != [] {
      var front, last := ops[..|ops| - 1], ops[|ops| - 1];
      assert ops == ops[..|ops|];
      TickingPrefix(ops, now, |ops|);
      RunTimesDiffer(front, maxItems, if last.UpsertOp? then last.record.updatedAt else now);
      match last
      case UpsertOp(r) =>
        RunOrderly(front, maxItems, r.updatedAt);
        UpsertTimesDiffer(Run(front, maxItems), r, maxItems);
      case DeleteOp(ref) =>
        RunOrderly(front, maxItems, now);
        DeleteMeaning(Run(front, maxItems), ref, maxItems, now);
    }
  }

  lemma UpsertTimesDiffer(items: seq<Record>, r: Record, maxItems: nat)
    requires Orderly(items, maxItems, r.updatedAt) && TimesDiffer(items) && maxItems >= 1
    ensures TimesDiffer(Upsert(items, r, maxItems).0)
  {
    hide Find, Updated, Upsert;
    var evicted := UpsertMeaning(items, r, maxItems, r.updatedAt + 1);
    UpdatedTime(items, r);
  }

  /** The record is the oldest of a full list, and the one to write has a new title. */
  ghost predicate GivesWay(items: seq<Record>, x: Record, r: Record, maxItems: nat) {
    |items| == maxItems && Find(items, r.hash) == |items| && forall z :: z in items ==> x.updatedAt <= z.updatedAt
  }

  /** Exactly when an upsert drops a title from the list of any run: manual or not, protected or not. */
  lemma EvictedIff(ops: seq<Op>, r: Record, maxItems: nat, now: int, x: Record)
    requires Ticking(ops, r.updatedAt) && maxItems >= 1
    requires x in Run(ops, maxItems)
    ensures !Listed(Run(ops + [UpsertOp(r)], maxItems), x.hash) <==> GivesWay(Run(ops, maxItems), x, r, maxItems)
  {
    hide Upsert, Find, Run, Ticking;
    var items := Run(ops, maxItems);
    RunOrderly(ops, maxItems, r.updatedAt);
    RunTimesDiffer(ops, maxItems, r.updatedAt);
    assert Run(ops + [UpsertOp(r)], maxItems)
           == Upsert(items, r, maxItems).0 by { RunSnoc(ops, UpsertOp(r), maxItems); }
    if x.hash != r.hash {
      UpsertEvicts(items, r, maxItems, x);
    } else {
      var evicted := UpsertMeaning(items, r, maxItems, r.updatedAt + 1);
      assert Upsert(items, r, maxItems).1.hash == x.hash;
    }
  }

  lemma RunSnoc(ops: seq<Op>, op: Op, maxItems: nat)
    ensures Run(ops + [op], maxItems) == Step(Run(ops, maxItems), op, maxItems)
  {
    assert (ops + [op])[..|ops|] == ops;
  }

  lemma UpsertEvicts(items: seq<Record>, r: Record, maxItems: nat, x: Record)
    requires Orderly(items, maxItems, r.updatedAt) && TimesDiffer(items) && maxItems >= 1
    requires x in items && x.hash != r.hash
    ensures !Listed(Upsert(items, r, maxItems).0, x.hash) <==> GivesWay(items, x, r, maxItems)
  {
    hide Upsert, Find, Updated;
    var evicted := UpsertMeaning(items, r, maxItems, r.updatedAt + 1);
    var after := Upsert(items, r, maxItems).0;
    assert Listed(after, x.hash) <==> x in after by {
      if Listed(after, x.hash) {
        var i := ListedAt(after, x.hash);
        SameRecord(items, maxItems, r.updatedAt, x, after[i]);
      }
    }
    if |items| == maxItems && Find(items, r.hash) == |items| {
      UpsertFull(items, r, maxItems);
    }
  }

  /** A new title in a full list takes some record's place. */
  lemma UpsertFull(items: seq<Record>, r: Record, maxItems: nat)
    requires Orderly(items, maxItems, r.updatedAt) && maxItems >= 1
    requires |items| == maxItems && Find(items, r.hash) == |items|
    ensures exists z :: z in items && z !in Upsert(items, r, maxItems).0 && forall y :: y in items ==>
            z.updatedAt <= y.updatedAt
  {
    hide Find, Evicted, Sorted;
    WrittenFacts(items, r);
    var z := EvictionDropsOldest(Written(items, r), maxItems);
    assert items[0] in Written(items, r) && z.updatedAt <= items[0].updatedAt;
  }

  lemma ListedAt(items: seq<Record>, hash: string) returns (i: nat)
    requires Listed(items, hash)
    ensures i < |items| && items[i].hash == hash
  {
    i :| i < |items| && items[i].hash == hash;
  }

  lemma SameRecord(items: seq<Record>, maxItems: nat, now: int, x: Record, y: Record)
    requires Orderly(items, maxItems, now) && x in items && y in items && x.hash == y.hash
    ensures x == y
  {
  }

  lemma TickingPrefix(ops: seq<Op>, now: int, n: nat)
    requires Ticking(ops, now) && n <= |ops|
    ensures Ticking(ops[..n], now)
    ensures n > 0 && ops[n - 1].UpsertOp? ==>
              Ticking(ops[..n - 1], ops[n - 1].record.updatedAt) && ops[n - 1].record.updatedAt < now
    ensures n > 0 ==> Ticking(ops[..n - 1], now)
  {
    assert forall i :: 0 <= i < n ==> ops[..n][i] == ops[i];
    assert n > 0 ==> forall i :: 0 <= i < n - 1 ==> ops[..n - 1][i] == ops[i];
  }

  lemma StepOrigin(ops: seq<Op>, maxItems: nat, now: int, n: nat, z: Record, y: Record)
    requires Ticking(ops, now) && maxItems >= 1 && 0 < n <= |ops|
    requires z in Run(ops[..n - 1], maxItems) && y in Run(ops[..n], maxItems) && z.hash == y.hash
    ensures y.implementedAt == z.implementedAt && (z.featureId != "" ==> y.featureId == z.featureId)
    ensures z.manual && !Overrules(ops[n - 1], z.hash) ==> y == z
  {
    hide Upsert, Delete, Ticking, Orderly;
    TickingPrefix(ops, now, n);
    assert ops[..n][..n - 1] == ops[..n - 1];
    var before := Run(ops[..n - 1], maxItems);
    match ops[n - 1]
    case UpsertOp(r) =>
      RunOrderly(ops[..n - 1], maxItems, r.updatedAt);
      OriginKept(before, r, maxItems, z, y);
    case DeleteOp(ref) =>
      RunOrderly(ops[..n - 1], maxItems, now);
      DeleteMeaning(before, ref, maxItems, now);
      SameRecord(before, maxItems, now, z, y);
  }

  // ----- the service -----

  /** _merge_aliases: title and aliases, stripped, non-empty, first occurrences. */
  function MergedAliases(candidates: seq<string>): seq<string> { Dedup(Cleaned(Strip, candidates)) }

  function ProjectKey(project: string): string { Lower(Strip(project)) }

  class FilesystemStore {
    var projects: map<string, seq<Record>>

    constructor ()
      ensures projects == map[]
    {
      projects := map[];
    }

    ghost function Items(project: string): seq<Record>
      reads this
    {
      if project in projects then projects[project] else []
    }

    /** upsert_record */
    method UpsertRecord(project: string, r: Record, maxItems: nat) returns (saved: Record)
      modifies this
      ensures (Items(project), saved) == Upsert(old(Items(project)), r, maxItems)
      ensures projects - {project} == old(projects) - {project}
    {
      hide Sorted;
      var items := if project in projects then projects[project] else [];
      var at := Search(items, r.hash);
      saved := r;
      if at < |items| {
        var existing := items[at];
        if existing.manual && !r.manual { return existing; }
        saved := saved.(implementedAt := existing.implementedAt);
        if existing.featureId != "" { saved := saved.(featureId := existing.featureId); }
        items := items[at := saved];
      } else {
        items := items + [saved];
      }
      if |items| > maxItems {
        var sorted := Sorted(items);
        items := if |sorted| < maxItems then sorted else sorted[..maxItems];
      }
      projects := projects[project := items];
    }

    /** The search loop of upsert_record. */
    static method Search(items: seq<Record>, hash: string) returns (i: nat)
      ensures i == Find(items, hash)
    {
      i := 0;
      while i < |items| && items[i].hash != hash
        invariant i <= |items| && forall j :: 0 <= j < i ==> items[j].hash != hash
      {
        i := i + 1;
      }
    }

    /** delete_record */
    method DeleteRecord(project: string, ref: string) returns (removed: Option<Record>)
      modifies this
      ensures Items(project) == Delete(old(Items(project)), ref) && projects - {project} == old(projects) - {project}
      ensures removed == Removed(old(Items(project)), ref)
    {
      hide Matches, FirstWhere;
      removed := None;
      if project !in projects { return; }
      var items, kept := projects[project], [];
      ghost var first := FirstMatch(items, ref);
      for i := 0 to |items|
        invariant kept == if i <= first then items[..i] else items[..first] + items[first + 1..i]
        invariant removed == if i <= first then None else Some(items[first])
      {
        if removed.None? && Matches(items[i], ref) {
          removed := Some(items[i]);
        } else {
          kept := kept + [items[i]];
        }
      }
      assert kept == Delete(items, ref);
      if removed.None? { return; }
      projects := projects[project := kept];
    }
  }

  class FeatureRegistryService {
    const enabled: bool
    const maxItems: nat
    const store: FilesystemStore

    /** The first twelve characters of a title's digest; different titles may share them. */
    const prefixOf: string -> string

    /** A registry never holds fewer than ten records at its bound. */
    constructor (enabled: bool, maxItems: int, store: FilesystemStore, prefixOf: string -> string)
      ensures this.enabled == enabled && this.store == store && this.prefixOf == prefixOf
      ensures this.maxItems >= 10 && this.maxItems >= maxItems && this.maxItems in {10, maxItems}
    {
      this.enabled, this.maxItems, this.store := enabled, if maxItems < 10 then 10 else maxItems, store;
      this.prefixOf := prefixOf;
    }

    /** upsert_feature */
    method UpsertFeature(project: string, title: string, aliases: seq<string>, sourceIssue: string, sourcePr: string,
                         featureId: string, manual: bool, now: int) returns (saved: Option<Record>)
      modifies store
      ensures var key, t := ProjectKey(project), Strip(title);
              var id := if Strip(featureId) != "" then Strip(featureId) else "feat_" + prefixOf(TitleHash(t));
              var r := Record(id, t, MergedAliases([t] + aliases), Strip(sourceIssue), Strip(sourcePr), now, now,
                  TitleHash(t), manual);
              if !enabled || key == "" || t == "" then saved == None && store.projects == old(store.projects)
              else
                && saved.Some? && (store.Items(key), saved.value) == Upsert(old(store.Items(key)), r, maxItems)
                && store.projects - {key} == old(store.projects) - {key}
    {
      hide ProjectKey, Strip, TitleHash, Upsert;
      var key, t := ProjectKey(project), Strip(title);
      if !enabled || key == "" || t == "" { return None; }
      var hash := TitleHash(t);
      var id := Strip(featureId);
      if id == "" { id := "feat_" + prefixOf(hash); }
      var merged := MergeAliases(t, aliases);
      var r := Record(id, t, merged, Strip(sourceIssue), Strip(sourcePr), now, now, hash, manual);
      var s := store.UpsertRecord(key, r, maxItems);
      saved := Some(s);
    }

    static method MergeAliases(title: string, aliases: seq<string>) returns (unique: seq<string>)
      ensures unique == MergedAliases([title] + aliases)
    {
      hide Strip;
      var candidates := [title] + aliases;
      unique := [];
      assert candidates[..0] == [];
      for i := 0 to |candidates|
        invariant unique == MergedAliases(candidates[..i])
      {
        CleanedTurn(Strip, candidates, i);
        var value := Strip(candidates[i]);
        if value != "" && value !in unique { unique := unique + [value]; }
      }
      assert candidates[..|candidates|] == candidates;
    }

    /** forget_feature */
    method ForgetFeature(project: string, ref: string) returns (removed: Option<Record>)
      modifies store
      ensures var key := ProjectKey(project);
              if !enabled || key == "" || Strip(ref) == "" then removed == None && store.projects == old(store.projects)
              else
                && store.Items(key) == Delete(old(store.Items(key)), Strip(ref))
                && removed == Removed(old(store.Items(key)), Strip(ref))
                && store.projects - {key} == old(store.projects) - {key}
    {
      hide ProjectKey, Strip, Delete, Removed;
      var key, text := ProjectKey(project), Strip(ref);
      if !enabled || key == "" || text == "" { return None; }
      removed := store.DeleteRecord(key, text);
    }
  }
}
