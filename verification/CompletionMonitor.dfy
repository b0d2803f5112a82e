/** The completion monitor: scanning cycles over a shared dedup set that is persisted between them. */
module CompletionMonitor {
  import opened Text
  import opened Host
  import opened CompletionScan

  type Scan = seq<(Detection, Answers)>

  // ----- one scan -----

  datatype Scanned = Scanned(seen: set<string>, effects: seq<Effect>, escaped: bool)

  /** One turn after a scan: skipped when an exception has escaped or the key is already in the set. */
  function AfterTurn(s: Scanned, d: Detection, a: Answers, stale: Option<int>): Scanned {
    if s.escaped || d.key in s.seen then s
    else
      var t := ProcessDetection(d, a, stale);
      Scanned(if t.closed then s.seen + {d.key} else s.seen, s.effects + t.effects, t.escaped)
  }

  function ScanAll(scan: Scan, stale: Option<int>, seen: set<string>): Scanned {
    if scan == [] then Scanned(seen, [], false)
    else
      var last := scan[|scan| - 1];
      AfterTurn(ScanAll(scan[..|scan| - 1], stale, seen), last.0, last.1, stale)
  }

  /** The dedup set that caller and scan share. */
  class DedupSet {
    var keys: set<string>

    constructor (keys: set<string>)
      ensures this.keys == keys
    {
      this.keys := keys;
    }

    method Add(key: string)
      modifies this
      ensures keys == old(keys) + {key}
    {
      keys := keys + {key};
    }
  }

  /** scan_and_process_completions: the loop over the detections, adding to the shared set as it goes. */
  method ScanAndProcessCompletions(scan: Scan, stale: Option<int>, dedupSeen: DedupSet)
    returns (effects: seq<Effect>, escaped: bool)
    modifies dedupSeen
    ensures Scanned(dedupSeen.keys, effects, escaped) == ScanAll(scan, stale, old(dedupSeen.keys))
  {
    hide ProcessDetection;
    effects, escaped := [], false;
    var i := 0;
    while i < |scan| && !escaped
      invariant 0 <= i <= |scan|
      invariant Scanned(dedupSeen.keys, effects, escaped) == ScanAll(scan[..i], stale, old(dedupSeen.keys))
    {
      var (d, a) := scan[i];
      assert scan[..i + 1][..i] == scan[..i];
      i := i + 1;
      if d.key in dedupSeen.keys {
        continue;
      }
      var turn := ProcessDetection(d, a, stale);
      effects := effects + turn.effects;
      if turn.closed {
        dedupSeen.Add(d.key);
      }
      escaped := turn.escaped;
    }
    if escaped {
      EscapedStays(scan, i, stale, old(dedupSeen.keys));
    }
    assert i == |scan| ==> scan[..i] == scan;
  }

  lemma {:induction false} EscapedStays(scan: Scan, i: nat, stale: Option<int>, seen: set<string>)
    requires i <= |scan| && ScanAll(scan[..i], stale, seen).escaped
    ensures ScanAll(scan, stale, seen) == ScanAll(scan[..i], stale, seen)
  {
    if i == |scan| {
      assert scan[..i] == scan;
    } else {
      assert scan[..|scan| - 1][..i] == scan[..i];
      EscapedStays(scan[..|scan| - 1], i, stale, seen);
    }
  }

  // ----- cycles -----

  /** The in-memory record of handled keys with their times, and the copy last written to storage. */
  datatype Record = Record(comments: map<string, real>, stored: map<string, real>)

  /** What happens to the monitor: a cycle, with the clock after the scan and whether the save reached storage; a
      cycle in which the process dies after so many effects; or a restart, which reads the stored copy. */
  datatype Event =
    | Cycle(scan: Scan, stale: Option<int>, now: real, saved: bool)
    | Died(scan: Scan, stale: Option<int>, after: nat)
    | Restart

  function Cut(effects: seq<Effect>, n: nat): (r: seq<Effect>)
    ensures r <= effects
  {
    if n < |effects| then effects[..n] else effects
  }

  function Merge(comments: map<string, real>, keys: set<string>, now: real): map<string, real> {
    map k | k in comments.Keys + keys :: if k in comments then comments[k] else now
  }

  function AfterEvent(r: Record, e: Event): Record {
    match e
    case Restart => r.(comments := r.stored)
    case Died(_, _, _) => r.(comments := r.stored)
    case Cycle(scan, stale, now, saved) =>
      var s := ScanAll(scan, stale, r.comments.Keys);
      if s.escaped then r
      else
        var comments := Merge(r.comments, s.seen, now);
        Record(comments, if saved then comments else r.stored)
  }

  function EffectsOf(r: Record, e: Event): seq<Effect> {
    match e
    case Restart => []
    case Cycle(scan, stale, _, _) => ScanAll(scan, stale, r.comments.Keys).effects
    case Died(scan, stale, after) => Cut(ScanAll(scan, stale, r.comments.Keys).effects, after)
  }

  class Monitor {
    var completionComments: map<string, real>
    var stored: map<string, real>

    constructor (stored: map<string, real>)
      ensures this.stored == stored && completionComments == stored
    {
      this.stored := stored;
      completionComments := stored;
    }

    function View(): Record
      reads this
    {
      Record(completionComments, stored)
    }

    /** Stamps the keys not yet on record. */
    method StampNewKeys(keys: set<string>, now: real)
      modifies this`completionComments
      ensures completionComments == Merge(old(completionComments), old(completionComments).Keys + keys, now)
    {
      var pending := keys;
      while pending != {}
        invariant pending <= keys
        invariant completionComments == Merge(old(completionComments), old(completionComments).Keys + (keys - pending),
                  now)
        decreases |pending|
      {
        var key :| key in pending;
        pending := pending - {key};
        if key !in completionComments {
          completionComments := completionComments[key := now];
        }
      }
      assert keys - {} == keys;
    }

    /** post_completion_comments_from_logs: scan with a copy of the known keys, then stamp and save the new ones. */
    method PostCompletionComments(scan: Scan, stale: Option<int>, now: real, saved: bool)
      returns (effects: seq<Effect>)
      modifies this
      ensures View() == AfterEvent(old(View()), Cycle(scan, stale, now, saved))
      ensures effects == EffectsOf(old(View()), Cycle(scan, stale, now, saved))
    {
      hide ScanAll;
      var dedup := new DedupSet(completionComments.Keys);
      var escaped;
      effects, escaped := ScanAndProcessCompletions(scan, stale, dedup);
      if escaped {
        return;
      }
      ghost var before := completionComments;
      ScanGrows(scan, stale, before.Keys);
      StampNewKeys(dedup.keys, now);
      assert completionComments == Merge(before, dedup.keys, now);
      if saved {
        stored := completionComments;
      }
    }
  }

  // ----- laws of one scan -----

  /** No two effects of a trace settle the same key. */
  ghost predicate SettledOnce(trace: seq<Effect>) {
    forall i, j, k :: 0 <= i < j < |trace| && Settles(trace[i], k) ==> !Settles(trace[j], k)
  }

  /** Every launch directly follows the transition alert and the delivered comment of its own key, for the same agent.
      */
  ghost predicate LaunchesFollowComments(trace: seq<Effect>) {
    forall i :: 0 <= i < |trace| && trace[i].Launch? ==>
      i >= 2 && trace[i - 1] == TransitionAlert(trace[i].key)
          && trace[i - 2] == Comment(trace[i].key, trace[i].agent, true)
  }

  /** Every key an effect of the trace settles is in `seen`. */
  ghost predicate SettledSeen(trace: seq<Effect>, seen: set<string>) {
    forall i, k :: 0 <= i < |trace| && Settles(trace[i], k) ==> k in seen
  }

  ghost predicate TraceOk(trace: seq<Effect>, seen: set<string>) {
    SettledOnce(trace) && SettledSeen(trace, seen) && LaunchesFollowComments(trace)
  }

  /** What the shapes of a turn's effects have in common. */
  lemma ShapeFacts(d: Detection, t: Turn, i: nat)
    requires Shaped(d, t) && i < |t.effects|
    ensures forall k :: Settles(t.effects[i], k) ==> i == 0 && k == d.key && t.closed
    ensures t.effects[i].key == d.key
    ensures t.effects[i].Launch? ==>
      i == 2 && t.effects[1] == TransitionAlert(d.key) && t.effects[0] == Comment(d.key, t.effects[i].agent, true)
  {
  }

  /** Appending the effects of a turn whose key was not yet seen keeps the laws of the trace. */
  lemma TurnKeeps(trace: seq<Effect>, seen: set<string>, d: Detection, t: Turn)
    requires TraceOk(trace, seen) && d.key !in seen && Shaped(d, t)
    ensures TraceOk(trace + t.effects, if t.closed then seen + {d.key} else seen)
  {
    hide Shaped, Settles;
    var both, n := trace + t.effects, |trace|;
    forall i, k | n <= i < |both| && Settles(both[i], k) ensures i == n && k == d.key && t.closed {
      ShapeFacts(d, t, i - n);
    }
    forall i | 0 <= i < |both| && both[i].Launch?
      ensures i >= 2 && both[i - 1] == TransitionAlert(both[i].key)
              && both[i - 2] == Comment(both[i].key, both[i].agent, true)
    {
      if i >= n {
        ShapeFacts(d, t, i - n);
      } else {
        assert both[i] == trace[i];
      }
    }
    forall i, j, k | 0 <= i < j < |both| && Settles(both[i], k) ensures !Settles(both[j], k) {
      if i < n { assert both[i] == trace[i]; }
      if j < n { assert both[j] == trace[j]; }
    }
    forall i, k | 0 <= i < |both| && Settles(both[i], k) ensures k in (if t.closed then seen + {d.key} else seen) {
      if i < n { assert both[i] == trace[i]; }
    }
  }

  /** Over a whole scan the trace laws are kept, the set only grows, and only by keys of the scan. */
  lemma {:induction false} ScanKeeps(trace: seq<Effect>, scan: Scan, stale: Option<int>, seen: set<string>)
    requires TraceOk(trace, seen)
    ensures var s := ScanAll(scan, stale, seen);
            seen <= s.seen && TraceOk(trace + s.effects, s.seen)
  {
    hide ProcessDetection, Shaped, TraceOk;
    if scan == [] {
      assert trace + [] == trace;
    } else {
      var before := ScanAll(scan[..|scan| - 1], stale, seen);
      var (d, a) := scan[|scan| - 1];
      ScanKeeps(trace, scan[..|scan| - 1], stale, seen);
      if !before.escaped && d.key !in before.seen {
        var t := ProcessDetection(d, a, stale);
        TurnShaped(d, a, stale);
        TurnKeeps(trace + before.effects, before.seen, d, t);
        assert trace + before.effects + t.effects == trace + (before.effects + t.effects);
      }
    }
  }

  /** A scan has no effect on a key that was in the set before it. */
  lemma {:induction false} SeenKeysIdle(scan: Scan, stale: Option<int>, seen: set<string>, i: nat)
    requires i < |ScanAll(scan, stale, seen).effects|
    ensures ScanAll(scan, stale, seen).effects[i].key !in seen
    ensures seen <= ScanAll(scan, stale, seen).seen
  {
    hide ProcessDetection;
    var before := ScanAll(scan[..|scan| - 1], stale, seen);
    var (d, a) := scan[|scan| - 1];
    ScanGrows(scan[..|scan| - 1], stale, seen);
    if i < |before.effects| {
      SeenKeysIdle(scan[..|scan| - 1], stale, seen, i);
    } else {
      TurnShaped(d, a, stale);
    }
  }

  lemma {:induction false} ScanGrows(scan: Scan, stale: Option<int>, seen: set<string>)
    ensures seen <= ScanAll(scan, stale, seen).seen
  {
    hide ProcessDetection;
    if scan != [] {
      ScanGrows(scan[..|scan| - 1], stale, seen);
    }
  }

  /** The i-th completion is worked on as long as nothing escapes before it: its key is not on record, and no earlier
      turn of the scan has closed it. */
  ghost predicate Open(scan: Scan, stale: Option<int>, seen: set<string>, i: nat)
    requires i < |scan|
  {
    && scan[i].0.key !in seen
    && forall j :: 0 <= j < i && scan[j].0.key == scan[i].0.key ==> !Closes(scan[j].0, scan[j].1, stale)
  }

  ghost predicate EscapesAt(scan: Scan, stale: Option<int>, seen: set<string>, i: nat)
    requires i < |scan|
  {
    Open(scan, stale, seen, i) && Escapes(scan[i].0, scan[i].1, stale)
  }

  /** The host's answers end the scan at its i-th completion. */
  ghost predicate EndsAt(scan: Scan, stale: Option<int>, seen: set<string>, i: nat)
    requires i < |scan|
  {
    EscapesAt(scan, stale, seen, i) && forall j :: 0 <= j < i ==> !EscapesAt(scan, stale, seen, j)
  }

  /** The host's answers settle the i-th completion, if the scan comes to it. */
  ghost predicate SettlesAt(scan: Scan, stale: Option<int>, seen: set<string>, i: nat)
    requires i < |scan|
  {
    Open(scan, stale, seen, i) && SettlesTurn(scan[i].0, scan[i].1, stale)
  }

  /** The first n turns of a scan that nothing ends before: which keys are closed and whether anything is settled,
      read off the host's answers. */
  lemma {:induction false} ScanSoFar(scan: Scan, stale: Option<int>, seen: set<string>, n: nat)
    requires n <= |scan| && forall j :: 0 <= j < n ==> !EscapesAt(scan, stale, seen, j)
    ensures var s := ScanAll(scan[..n], stale, seen);
            && !s.escaped
            && (forall k :: k in s.seen <==>
                  k in seen || exists j :: 0 <= j < n && scan[j].0.key == k && Closes(scan[j].0, scan[j].1, stale))
            && (SettlesSome(s.effects) <==> exists j :: 0 <= j < n && SettlesAt(scan, stale, seen, j))
  {
    hide ProcessDetection, Closes, Escapes, SettlesTurn, SettlesSome;
    if n == 0 {
      assert !SettlesSome([]) by { NothingSettles(); }
    } else {
      var (d, a) := scan[n - 1];
      assert scan[..n][..n - 1] == scan[..n - 1];
      ScanSoFar(scan, stale, seen, n - 1);
      var before := ScanAll(scan[..n - 1], stale, seen);
      assert !EscapesAt(scan, stale, seen, n - 1);
      assert Open(scan, stale, seen, n - 1) <==> d.key !in before.seen;
      TurnOutcome(d, a, stale);
      var s := ScanAll(scan[..n], stale, seen);
      if d.key !in before.seen {
        TurnSettles(before.effects, d, a, stale);
        assert s.seen == if Closes(d, a, stale) then before.seen + {d.key} else before.seen;
      } else {
        assert s == before;
      }
      assert SettlesAt(scan, stale, seen, n - 1) <==> d.key !in before.seen && SettlesTurn(d, a, stale);
      assert SettlesSome(s.effects) <==> SettlesSome(before.effects) || SettlesAt(scan, stale, seen, n - 1);
    }
  }

  lemma NothingSettles()
    ensures !SettlesSome([])
  {
  }

  lemma TurnSettles(before: seq<Effect>, d: Detection, a: Answers, stale: Option<int>)
    ensures SettlesSome(before + ProcessDetection(d, a, stale).effects) <==>
            SettlesSome(before) || SettlesTurn(d, a, stale)
  {
    hide ProcessDetection, SettlesTurn, Shaped, SettlesSome, Settles;
    var t := ProcessDetection(d, a, stale);
    TurnShaped(d, a, stale);
    TurnOutcome(d, a, stale);
    ShapeSettles(d, t);
    SettlesAppended(before, t.effects);
  }

  lemma ShapeSettles(d: Detection, t: Turn)
    requires Shaped(d, t)
    ensures SettlesSome(t.effects) <==> SettlesOwn(t, d.key)
  {
    hide Shaped, Settles;
    if SettlesSome(t.effects) {
      var i, k :| 0 <= i < |t.effects| && Settles(t.effects[i], k);
      ShapeFacts(d, t, i);
    }
  }

  lemma SettlesAppended(before: seq<Effect>, fx: seq<Effect>)
    ensures SettlesSome(before + fx) <==> SettlesSome(before) || SettlesSome(fx)
  {
    hide Settles;
    var both := before + fx;
    assert forall i :: 0 <= i < |before| ==> both[i] == before[i];
    assert forall i :: 0 <= i < |fx| ==> both[|before| + i] == fx[i];
    if i, k :| 0 <= i < |both| && Settles(both[i], k) {
      assert i >= |before| ==> both[i] == fx[i - |before|];
    }
  }

  /** A scan lets an exception escape exactly when the answers end it somewhere. */
  lemma ScanEscapesIff(scan: Scan, stale: Option<int>, seen: set<string>)
    ensures ScanAll(scan, stale, seen).escaped <==> exists i :: 0 <= i < |scan| && EndsAt(scan, stale, seen, i)
  {
    hide ScanAll, EscapesAt;
    assert scan[..|scan|] == scan;
    if i :| 0 <= i < |scan| && EscapesAt(scan, stale, seen, i) {
      var first := FirstEscape(scan, stale, seen, i);
      ScanEndsAt(scan, stale, seen, first);
    } else {
      ScanSoFar(scan, stale, seen, |scan|);
    }
  }

  lemma {:induction false} FirstEscape(scan: Scan, stale: Option<int>, seen: set<string>, i: nat) returns (first: nat)
    requires i < |scan| && EscapesAt(scan, stale, seen, i)
    ensures first <= i && EndsAt(scan, stale, seen, first)
  {
    hide EscapesAt;
    if j :| 0 <= j < i && EscapesAt(scan, stale, seen, j) {
      first := FirstEscape(scan, stale, seen, j);
    } else {
      first := i;
    }
  }

  /** A scan that ends at i has the effects of its first i + 1 turns. */
  lemma ScanEndsAt(scan: Scan, stale: Option<int>, seen: set<string>, i: nat)
    requires i < |scan| && EndsAt(scan, stale, seen, i)
    ensures var s := ScanAll(scan, stale, seen);
            && s.escaped
            && (SettlesSome(s.effects) <==> exists j :: 0 <= j <= i && SettlesAt(scan, stale, seen, j))
  {
    hide ProcessDetection, Closes, Escapes, SettlesTurn, SettlesSome;
    var (d, a) := scan[i];
    ScanSoFar(scan, stale, seen, i);
    assert scan[..i + 1][..i] == scan[..i];
    var before := ScanAll(scan[..i], stale, seen);
    assert d.key !in before.seen;
    TurnOutcome(d, a, stale);
    TurnSettles(before.effects, d, a, stale);
    EscapedStays(scan, i + 1, stale, seen);
    assert SettlesAt(scan, stale, seen, i) <==> SettlesTurn(d, a, stale);
  }

  /** The scan comes to the i-th completion and works on it. */
  ghost predicate Reached(scan: Scan, stale: Option<int>, seen: set<string>, i: nat)
    requires i < |scan|
  {
    Open(scan, stale, seen, i) && forall j :: 0 <= j < i ==> !EscapesAt(scan, stale, seen, j)
  }

  /** The host's answers make this effect part of the i-th turn, and the scan comes to it. */
  ghost predicate HappensAt(scan: Scan, stale: Option<int>, seen: set<string>, i: nat, e: Effect)
    requires i < |scan|
  {
    Reached(scan, stale, seen, i) && Happens(scan[i].0, scan[i].1, stale, e)
  }

  /** A scan has exactly the effects that the host's answers call for on the completions it works on. */
  lemma ScanExact(scan: Scan, stale: Option<int>, seen: set<string>, e: Effect)
    ensures e in ScanAll(scan, stale, seen).effects <==>
            exists i :: 0 <= i < |scan| && HappensAt(scan, stale, seen, i, e)
  {
    hide ScanAll, HappensAt;
    assert scan[..|scan|] == scan;
    PrefixExact(scan, stale, seen, |scan|, e);
  }

  lemma {:induction false} PrefixExact(scan: Scan, stale: Option<int>, seen: set<string>, n: nat, e: Effect)
    requires n <= |scan|
    ensures var s := ScanAll(scan[..n], stale, seen);
            && (e in s.effects <==> exists i :: 0 <= i < n && HappensAt(scan, stale, seen, i, e))
            && (s.escaped <==> exists j :: 0 <= j < n && EscapesAt(scan, stale, seen, j))
  {
    hide ProcessDetection, Escapes, Happens, Open;
    if n > 0 {
      var (d, a) := scan[n - 1];
      assert scan[..n][..n - 1] == scan[..n - 1];
      PrefixExact(scan, stale, seen, n - 1, e);
      var before, s := ScanAll(scan[..n - 1], stale, seen), ScanAll(scan[..n], stale, seen);
      TurnOutcome(d, a, stale);
      EffectsExact(d, a, stale, e);
      if !before.escaped {
        OpenUnseen(scan, stale, seen, n - 1);
      }
      assert e in s.effects <==> e in before.effects || HappensAt(scan, stale, seen, n - 1, e);
      assert s.escaped <==> before.escaped || EscapesAt(scan, stale, seen, n - 1);
    }
  }

  lemma OpenUnseen(scan: Scan, stale: Option<int>, seen: set<string>, n: nat)
    requires n < |scan| && forall j :: 0 <= j < n ==> !EscapesAt(scan, stale, seen, j)
    ensures Open(scan, stale, seen, n) <==> scan[n].0.key !in ScanAll(scan[..n], stale, seen).seen
  {
    hide ScanAll, EscapesAt, Closes;
    ScanSoFar(scan, stale, seen, n);
  }

  ghost predicate SettlesSome(trace: seq<Effect>) {
    exists i, k :: 0 <= i < |trace| && Settles(trace[i], k)
  }

  /** The host's answers let an exception escape after something was settled. */
  ghost predicate SettlesThenEscapes(scan: Scan, stale: Option<int>, seen: set<string>) {
    exists i, j :: 0 <= j <= i < |scan| && EndsAt(scan, stale, seen, i) && SettlesAt(scan, stale, seen, j)
  }

  lemma SettlesThenEscapesIff(scan: Scan, stale: Option<int>, seen: set<string>)
    ensures SettlesThenEscapes(scan, stale, seen) <==>
            ScanAll(scan, stale, seen).escaped && SettlesSome(ScanAll(scan, stale, seen).effects)
  {
    hide ScanAll, SettlesSome, EndsAt, SettlesAt;
    ScanEscapesIff(scan, stale, seen);
    if i, j :| 0 <= j <= i < |scan| && EndsAt(scan, stale, seen, i) && SettlesAt(scan, stale, seen, j) {
      ScanEndsAt(scan, stale, seen, i);
    }
    if ScanAll(scan, stale, seen).escaped {
      var i :| 0 <= i < |scan| && EndsAt(scan, stale, seen, i);
      ScanEndsAt(scan, stale, seen, i);
    }
  }

  // ----- runs -----

  function Run(r: Record, events: seq<Event>): Record {
    if events == [] then r else AfterEvent(Run(r, events[..|events| - 1]), events[|events| - 1])
  }

  function Trace(r: Record, events: seq<Event>): seq<Effect> {
    if events == [] then []
    else
      var init := events[..|events| - 1];
      Trace(r, init) + EffectsOf(Run(r, init), events[|events| - 1])
  }

  /** What the at-most-once laws need of an event: a restart finds every recorded key in storage, and a cycle is not
      cut by an escaping exception or the process dying after it has settled something. */
  ghost predicate Safe(r: Record, e: Event) {
    match e
    case Restart => r.comments.Keys <= r.stored.Keys
    case Cycle(scan, stale, _, _) => !SettlesThenEscapes(scan, stale, r.comments.Keys)
    case Died(_, _, _) => r.comments.Keys <= r.stored.Keys && !SettlesSome(EffectsOf(r, e))
  }

  ghost predicate SafeRun(r: Record, events: seq<Event>) {
    forall i :: 0 <= i < |events| ==> Safe(Run(r, events[..i]), events[i])
  }

  /** A trace law that holds with some keys on record holds with more, and effects that settle nothing add no key. */
  lemma MoreSeen(trace: seq<Effect>, seen: set<string>, more: set<string>)
    requires TraceOk(trace, seen) && seen <= more
    ensures TraceOk(trace, more)
  {
  }

  lemma UnsettledKeepsSeen(trace: seq<Effect>, fx: seq<Effect>, seen: set<string>, more: set<string>)
    requires TraceOk(trace, seen) && TraceOk(trace + fx, more) && !SettlesSome(fx)
    ensures TraceOk(trace + fx, seen)
  {
    hide Settles;
    var both := trace + fx;
    assert forall i :: 0 <= i < |trace| ==> both[i] == trace[i];
    assert forall i :: |trace| <= i < |both| ==> both[i] == fx[i - |trace|];
  }

  lemma CutOk(trace: seq<Effect>, fx: seq<Effect>, n: nat, seen: set<string>)
    requires TraceOk(trace + fx, seen)
    ensures TraceOk(trace + Cut(fx, n), seen)
  {
    hide Settles;
    var both, part := trace + fx, trace + Cut(fx, n);
    assert forall i :: 0 <= i < |part| ==> part[i] == both[i];
  }

  /** Over every run of cycles, crashes and restarts, whatever the host answers and whichever saves are lost, as long
      as each
      event is safe: each key has at most one delivered comment or returned finalisation, every launch directly
      follows its own delivered comment, and all settled keys are on record. */
  lemma {:induction false} RunKeeps(r: Record, events: seq<Event>)
    requires SafeRun(r, events)
    ensures TraceOk(Trace(r, events), Run(r, events).comments.Keys)
  {
    hide TraceOk, ScanAll, SettlesThenEscapes, SettlesSome;
    if events == [] {
      EmptyTraceOk(r.comments.Keys);
    } else {
      var init, e := events[..|events| - 1], events[|events| - 1];
      SafeInit(r, events);
      RunKeeps(r, init);
      var before, trace := Run(r, init), Trace(r, init);
      var seen := before.comments.Keys;
      match e {
        case Restart =>
          assert trace + [] == trace;
          MoreSeen(trace, seen, before.stored.Keys);
        case Cycle(scan, stale, now, saved) =>
          var s := ScanAll(scan, stale, seen);
          ScanKeeps(trace, scan, stale, seen);
          SettlesThenEscapesIff(scan, stale, seen);
          if s.escaped {
            UnsettledKeepsSeen(trace, s.effects, seen, s.seen);
          } else {
            assert Merge(before.comments, s.seen, now).Keys == s.seen;
          }
        case Died(scan, stale, after) =>
          var s := ScanAll(scan, stale, seen);
          ScanKeeps(trace, scan, stale, seen);
          CutOk(trace, s.effects, after, s.seen);
          UnsettledKeepsSeen(trace, Cut(s.effects, after), seen, s.seen);
          MoreSeen(trace + Cut(s.effects, after), seen, before.stored.Keys);
      }
    }
  }

  lemma SafeInit(r: Record, events: seq<Event>)
    requires events != [] && SafeRun(r, events)
    ensures SafeRun(r, events[..|events| - 1]) && Safe(Run(r, events[..|events| - 1]), events[|events| - 1])
  {
    hide Safe, Run;
    var init := events[..|events| - 1];
    forall i | 0 <= i < |init| ensures Safe(Run(r, init[..i]), init[i]) {
      assert init[..i] == events[..i] && init[i] == events[i];
    }
  }

  /** In such a run the record only grows and recorded times never change, if storage starts as a copy of it. */
  lemma {:induction false} RecordKept(r: Record, events: seq<Event>)
    requires r.comments == r.stored && SafeRun(r, events)
    ensures var r' := Run(r, events);
            && r.comments.Keys <= r'.comments.Keys && r'.stored.Keys <= r'.comments.Keys
            && (forall k :: k in r.comments ==> r'.comments[k] == r.comments[k])
            && (forall k :: k in r'.stored ==> r'.comments[k] == r'.stored[k])
  {
    hide ScanAll, SettlesThenEscapes;
    if events != [] {
      SafeInit(r, events);
      RecordKept(r, events[..|events| - 1]);
      var before, e := Run(r, events[..|events| - 1]), events[|events| - 1];
      if e.Cycle? {
        ScanGrows(e.scan, e.stale, before.comments.Keys);
      }
    }
  }

  lemma EmptyTraceOk(seen: set<string>)
    ensures TraceOk([], seen)
  {
  }

  /** Consequences for single keys: one delivered comment, one launch, none after or before a finalisation. */
  lemma AtMostOncePerKey(r: Record, events: seq<Event>, i: nat, j: nat)
    requires SafeRun(r, events)
    requires i < |Trace(r, events)| && j < |Trace(r, events)| && i != j
    ensures var a, b := Trace(r, events)[i], Trace(r, events)[j];
            a.key == b.key ==>
              && !(a.Comment? && a.delivered && b.Comment? && b.delivered)
              && !(a.Launch? && b.Launch?)
              && !(a.Finalize? && a.returned && b.Launch?)
              && !(a.Finalize? && a.returned && b.Comment? && b.delivered)
  {
    RunKeeps(r, events);
    var t := Trace(r, events);
    var a, b := t[i], t[j];
    if a.Launch? && b.Launch? && a.key == b.key {
      assert Settles(t[i - 2], a.key) && Settles(t[j - 2], a.key);
    } else if a.Finalize? && a.returned && b.Launch? && a.key == b.key {
      assert Settles(t[i], a.key) && Settles(t[j - 2], a.key);
    } else if a.key == b.key {
      assert !(Settles(a, a.key) && Settles(b, a.key));
    }
  }

  /** A cycle writes exactly the keys it knew plus those it closed, with old times unchanged and new ones at `now`,
      or, when an exception escaped, nothing at all. */
  lemma CyclePersists(r: Record, scan: Scan, stale: Option<int>, now: real)
    ensures var s := ScanAll(scan, stale, r.comments.Keys);
            var r' := AfterEvent(r, Cycle(scan, stale, now, true));
            && (s.escaped ==> r' == r)
            && (!s.escaped ==>
                && r'.stored == r'.comments && r'.comments.Keys == s.seen && r.comments.Keys <= s.seen
                && (forall k :: k in r.comments ==> r'.comments[k] == r.comments[k])
                && (forall k :: k in s.seen && k !in r.comments ==> r'.comments[k] == now))
  {
    hide ScanAll;
    ScanGrows(scan, stale, r.comments.Keys);
  }

  // ----- where at-most-once fails -----

  ghost predicate SettlesTwice(first: seq<Effect>, second: seq<Effect>) {
    exists i, j, k :: 0 <= i < |first| && 0 <= j < |second| && Settles(first[i], k) && Settles(second[j], k)
  }

  /** Meeting the same completions and the same answers again, the next cycle settles a key a second time exactly
      when the answers let an exception escape after something was settled: such a cycle records nothing. */
  lemma RepeatedCycleIff(r: Record, scan: Scan, stale: Option<int>, now: real, saved: bool)
    ensures var e := Cycle(scan, stale, now, saved);
            SettlesTwice(EffectsOf(r, e), EffectsOf(AfterEvent(r, e), e)) <==>
                SettlesThenEscapes(scan, stale, r.comments.Keys)
  {
    hide ScanAll, SettlesThenEscapes, Settles, Merge;
    SettlesThenEscapesIff(scan, stale, r.comments.Keys);
    var e := Cycle(scan, stale, now, saved);
    var first, r' := EffectsOf(r, e), AfterEvent(r, e);
    var second := EffectsOf(r', e);
    if ScanAll(scan, stale, r.comments.Keys).escaped {
      assert second == first;
    } else {
      EmptyTraceOk(r.comments.Keys);
      ScanKeeps([], scan, stale, r.comments.Keys);
      assert [] + first == first;
      assert r'.comments.Keys == ScanAll(scan, stale, r.comments.Keys).seen by { CyclePersists(r, scan, stale, now); }
      forall j, k | 0 <= j < |second| && Settles(second[j], k)
          ensures forall i :: 0 <= i < |first| ==> !Settles(first[i], k) {
        SeenKeysIdle(scan, stale, r'.comments.Keys, j);
        SettlesItsKey(second[j], k);
      }
    }
  }

  lemma SettlesItsKey(e: Effect, k: string)
    requires Settles(e, k)
    ensures e.key == k
  {
  }

  /** The same after a restart in between: a key is settled again exactly when the cycle settled one and its save was
      lost, or the answers let an exception escape after something was settled. */
  lemma LostSaveIff(r: Record, scan: Scan, stale: Option<int>, now: real, saved: bool)
    requires r.comments == r.stored
    ensures var e := Cycle(scan, stale, now, saved);
            SettlesTwice(EffectsOf(r, e), EffectsOf(AfterEvent(AfterEvent(r, e), Restart), e)) <==>
            SettlesThenEscapes(scan, stale, r.comments.Keys) || (!saved && SettlesSome(EffectsOf(r, e)))
  {
    hide ScanAll, SettlesThenEscapes;
    SettlesThenEscapesIff(scan, stale, r.comments.Keys);
    var e := Cycle(scan, stale, now, saved);
    if saved && !ScanAll(scan, stale, r.comments.Keys).escaped {
      RepeatedCycleIff(r, scan, stale, now, saved);
      assert AfterEvent(AfterEvent(r, e), Restart).comments == AfterEvent(r, e).comments;
    } else {
      assert AfterEvent(AfterEvent(r, e), Restart) == r;
    }
  }

  /** And after the process has died in a cycle: exactly when that cycle had settled something. */
  lemma DiedIff(r: Record, scan: Scan, stale: Option<int>, after: nat, now: real, saved: bool)
    requires r.comments == r.stored
    ensures var e := Died(scan, stale, after);
            SettlesTwice(EffectsOf(r, e), EffectsOf(AfterEvent(r, e), Cycle(scan, stale, now, saved))) <==>
            SettlesSome(EffectsOf(r, e))
  {
    hide ScanAll, Settles;
    var e := Died(scan, stale, after);
    var first, second := EffectsOf(r, e), EffectsOf(AfterEvent(r, e), Cycle(scan, stale, now, saved));
    if i, k :| 0 <= i < |first| && Settles(first[i], k) {
      assert second[i] == first[i];
    }
  }

  /** Such an escape can happen: a returned finalisation followed by a schema error whose alert raises. */
  lemma EscapeAfterSettling(good: Answers, first: Detection, second: Detection)
    requires first.key != second.key
    requires good.runningBefore == Got(false) && good.repo.Got? && good.tracker.Got? && good.finalize.Got?
    requires good.engine == Got(Workflow(true, true, ""))
    ensures var bad := good.(engine := Raised(SchemaError), schemaAlert := Raised(OtherError));
            var s := ScanAll([(first, good), (second, bad)], None, {});
            s.escaped && SettlesSome(s.effects)
  {
    hide ProcessDetection;
    var bad := good.(engine := Raised(SchemaError), schemaAlert := Raised(OtherError));
    var scan: Scan := [(first, good), (second, bad)];
    FinalizingTurn(first, good);
    TurnOutcome(second, bad, None);
    assert scan[..1] == [(first, good)] && scan[..1][..0] == [];
    assert ScanAll(scan[..1][..0], None, {}) == Scanned({}, [], false);
    var one := ScanAll(scan[..1], None, {});
    assert one == AfterTurn(Scanned({}, [], false), first, good, None);
    var two := ScanAll(scan, None, {});
    assert two == AfterTurn(one, second, bad, None);
    assert Settles(two.effects[0], first.key);
  }

  lemma FinalizingTurn(d: Detection, a: Answers)
    requires a.runningBefore == Got(false) && a.repo.Got? && a.tracker.Got? && a.finalize.Got?
    requires a.engine == Got(Workflow(true, true, ""))
    ensures ProcessDetection(d, a, None) == Turn(true, [Finalize(d.key, true)], false)
  {
  }
}

/** From the stored payload to the scan: which keys a scan works with. */
module CompletionKeys {
  import opened CompletionFields
  import C = Completion
  import S = CompletionScan
  import M = CompletionMonitor

  /** A detected completion as the scan handles it. */
  function DetectionOf(lim: Limits, c: C.DetectedCompletion): S.Detection {
    S.Detection(c.DedupKey(lim), c.issueNumber, c.summary.agentType, c.summary.nextAgent)
  }

  /** If the key a save returned is on record, no cycle does anything about the completion read back for that issue,
      whatever else the cycle scans and whatever the host answers, provided the agent named in the save is the
      payload's own. */
  lemma SavedKeySilences(lim: Limits, files: map<string, C.Json>, issue: string, agentType: string, d: C.Json,
                         r: M.Record, e: M.Event, i: nat)
    requires issue in files && files[issue] == C.Encode(C.BudgetPayload(lim, d)) && C.ReadBack(lim, files, issue).Some?
    requires C.SameAgentType(agentType, C.BudgetPayload(lim, d))
    requires C.StepDedupKey(issue, agentType, files[issue]) in r.comments
    requires i < |M.EffectsOf(r, e)|
    ensures M.EffectsOf(r, e)[i].key != DetectionOf(lim, C.ReadBack(lim, files, issue).value).key
  {
    hide C.BudgetPayload, C.Encode, C.ReadBack, C.StepDedupKey, C.DetectedCompletion.DedupKey, C.SameAgentType,
         M.ScanAll;
    C.KeyAgreement(lim, files, issue, agentType, d);
    if !e.Restart? {
      M.SeenKeysIdle(e.scan, e.stale, r.comments.Keys, i);
    }
  }
}
