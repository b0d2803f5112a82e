/** The merge queue: persisted entries, the actions that put them up for merging, and the worker that merges them. */
module MergeQueue {
  import opened Text

  // ----- the persisted queue -----

  datatype Status = PendingManualReview | PendingAutoMerge | Merging | Merged | Blocked | Failed

  datatype Entry = Entry(
    prUrl: string, issue: string, project: string, repo: string,
    auto: bool,            // review mode
    status: Status,
    manualOverride: bool,
    createdAt: real, updatedAt: real,
    lastError: string)

  type Queue = map<string, Entry>

  /** Every key is its entry's own, stripped, non-empty PR URL. */
  ghost predicate Keyed(q: Queue) {
    forall key :: key in q ==> q[key].prUrl == key && key != "" && Stripped(key)
  }

  /** enqueue_merge_candidate for an already stripped, non-empty URL; re-queueing keeps the creation time. */
  function Enqueue(q: Queue, key: string, issue: string, project: string, repo: string, auto: bool, now: real): Queue {
    var createdAt := if key in q then q[key].createdAt else now;
    q[key := Entry(key, issue, project, repo, auto, if auto then PendingAutoMerge else PendingManualReview, false,
        createdAt, now, "")]
  }

  /** update_merge_candidate: unknown and blank URLs change nothing; a missing `override` keeps the entry's. */
  function Update(q: Queue, prUrl: string, status: Status, lastError: string, override: Option<bool>,
                  now: real): Queue {
    var key := Strip(prUrl);
    if key == "" || key !in q then q
    else
      var e := q[key];
      q[key := e.(status := status, lastError := lastError, updatedAt := now,
                  manualOverride := if override.Some? then override.value else e.manualOverride)]
  }

  datatype Action = Approve | Retry | MergeNow

  /** The status an inline action asks for, if any. */
  function Wanted(action: Action, e: Entry): Option<Status> {
    match action
    case Approve => if e.status == PendingManualReview then Some(PendingAutoMerge) else None
    case Retry =>
      if e.status !in {Blocked, Failed} then None
      else Some(if e.auto then PendingAutoMerge else PendingManualReview)
    case MergeNow => if e.status in {PendingManualReview, Blocked, Failed} then Some(PendingAutoMerge) else None
  }

  predicate Concerns(e: Entry, issue: string, project: string) { e.issue == issue && e.project == project }

  /** What a load gives: a file that cannot be read counts as empty. */
  function Loaded(q: Queue, readable: bool): Queue { if readable then q else map[] }

  /** What the store holds after a write: save_json swallows a failure, and nobody looks at its result. */
  function Stored(q: Queue, written: Queue, saved: bool): Queue { if saved then written else q }

  /** handle_merge_queue_inline_action over the whole queue; the saves of the entries in `lost` do not arrive. */
  function Act(q: Queue, action: Action, issue: string, project: string, lost: set<string>, now: real): Queue {
    map key | key in q ::
      var e := q[key];
      var wanted := Wanted(action, e);
      if Concerns(e, issue, project) && wanted.Some? && key !in lost
      then e.(status := wanted.value, lastError := "", updatedAt := now, manualOverride := action != Retry)
      else e
  }

  // ----- picking -----

  predicate Eligible(e: Entry) { e.status == PendingAutoMerge && (e.auto || e.manualOverride) }

  function Insert(sorted: seq<Entry>, e: Entry): seq<Entry> {
    if sorted == [] || sorted[|sorted| - 1].createdAt <= e.createdAt then sorted + [e]
    else Insert(sorted[..|sorted| - 1], e) + [sorted[|sorted| - 1]]
  }

  /** The eligible entries in queue order, stably sorted by creation time. */
  function Picked(q: Queue, order: seq<string>): seq<Entry>
    requires forall key :: key in order ==> key in q
  {
    if order == [] then []
    else
      var before, e := Picked(q, order[..|order| - 1]), q[order[|order| - 1]];
      if Eligible(e) then Insert(before, e) else before
  }

  ghost predicate Ordered(items: seq<Entry>) {
    forall i, j :: 0 <= i < j < |items| ==> items[i].createdAt <= items[j].createdAt
  }

  lemma {:induction false} InsertOrdered(sorted: seq<Entry>, e: Entry)
    requires Ordered(sorted)
    ensures Ordered(Insert(sorted, e))
    ensures forall x :: x in Insert(sorted, e) <==> x in sorted || x == e
  {
    if !(sorted == [] || sorted[|sorted| - 1].createdAt <= e.createdAt) {
      var front, last := sorted[..|sorted| - 1], sorted[|sorted| - 1];
      InsertOrdered(front, e);
      assert sorted == front + [last];
      assert forall x :: x in Insert(front, e) ==> x.createdAt <= last.createdAt;
    }
  }

  /** Exactly the eligible entries are picked, once each, oldest first. */
  lemma {:induction false} PickedMeaning(q: Queue, order: seq<string>)
    requires Keyed(q) && (forall key :: key in order ==> key in q)
    requires forall i, j :: 0 <= i < j < |order| ==> order[i] != order[j]
    ensures Ordered(Picked(q, order)) && OnePerKey(Picked(q, order))
    ensures forall e :: e in Picked(q, order) <==> e.prUrl in order && q[e.prUrl] == e && Eligible(e)
  {
    if order != [] {
      var front, last := order[..|order| - 1], order[|order| - 1];
      assert order == front + [last] && last !in front;
      PickedMeaning(q, front);
      InsertOrdered(Picked(q, front), q[last]);
      if Eligible(q[last]) {
        InsertDistinct(Picked(q, front), q[last]);
      }
    }
  }

  ghost predicate OnePerKey(items: seq<Entry>) {
    forall i, j :: 0 <= i < j < |items| ==> items[i].prUrl != items[j].prUrl
  }

  lemma {:induction false} InsertDistinct(sorted: seq<Entry>, e: Entry)
    requires OnePerKey(sorted) && forall x :: x in sorted ==> x.prUrl != e.prUrl
    ensures OnePerKey(Insert(sorted, e))
    ensures forall x :: x in Insert(sorted, e) <==> x in sorted || x == e
  {
    if !(sorted == [] || sorted[|sorted| - 1].createdAt <= e.createdAt) {
      var front, last := sorted[..|sorted| - 1], sorted[|sorted| - 1];
      assert sorted == front + [last];
      assert last in sorted;
      InsertDistinct(front, e);
      var r := Insert(front, e);
      assert forall x :: x in r ==> x.prUrl != last.prUrl;
      assert forall i :: 0 <= i < |r| ==> r[i] in r;
    }
  }

  ghost predicate Before(items: seq<Entry>, x: Entry, y: Entry) {
    exists i, j :: 0 <= i < j < |items| && items[i] == x && items[j] == y
  }

  lemma {:induction false} InsertBefore(sorted: seq<Entry>, e: Entry, x: Entry, y: Entry)
    requires x in sorted
    requires Before(sorted, x, y) || (y == e && x.createdAt <= e.createdAt)
    ensures Before(Insert(sorted, e), x, y)
  {
    var r := Insert(sorted, e);
    if sorted[|sorted| - 1].createdAt <= e.createdAt {
      var i :| 0 <= i < |sorted| && sorted[i] == x;
      assert r[i] == x && r[|sorted|] == e;
      if Before(sorted, x, y) {
        var k, l :| 0 <= k < l < |sorted| && sorted[k] == x && sorted[l] == y;
        assert r[k] == x && r[l] == y;
      }
    } else {
      var front, last := sorted[..|sorted| - 1], sorted[|sorted| - 1];
      assert sorted == front + [last];
      var inner := Insert(front, e);
      InsertMembers(front, e);
      if Before(sorted, x, y) {
        var k, l :| 0 <= k < l < |sorted| && sorted[k] == x && sorted[l] == y;
        assert front[k] == x;
        if l < |front| {
          assert Before(front, x, y);
          InsertBefore(front, e, x, y);
          BeforeSnoc(inner, x, y, last);
        } else {
          var i :| 0 <= i < |inner| && inner[i] == x;
          assert r[i] == x && r[|inner|] == last;
        }
      } else {
        assert x in front;
        InsertBefore(front, e, x, y);
        BeforeSnoc(inner, x, y, last);
      }
    }
  }

  lemma BeforeSnoc(items: seq<Entry>, x: Entry, y: Entry, last: Entry)
    requires Before(items, x, y)
    ensures Before(items + [last], x, y)
  {
    var i, j :| 0 <= i < j < |items| && items[i] == x && items[j] == y;
    assert (items + [last])[i] == x && (items + [last])[j] == y;
  }

  lemma {:induction false} InsertMembers(sorted: seq<Entry>, e: Entry)
    ensures forall x :: x in Insert(sorted, e) <==> x in sorted || x == e
  {
    if !(sorted == [] || sorted[|sorted| - 1].createdAt <= e.createdAt) {
      InsertMembers(sorted[..|sorted| - 1], e);
      assert sorted == sorted[..|sorted| - 1] + [sorted[|sorted| - 1]];
    }
  }

  /** Of two eligible entries the older is picked first, and of two equally old ones the one queued first. */
  lemma {:induction false} PickedStable(q: Queue, order: seq<string>, a: nat, b: nat)
    requires forall key :: key in order ==> key in q
    requires a < b < |order| && Eligible(q[order[a]]) && Eligible(q[order[b]])
    ensures q[order[a]].createdAt <= q[order[b]].createdAt ==> Before(Picked(q, order), q[order[a]], q[order[b]])
  {
    var front, last := order[..|order| - 1], order[|order| - 1];
    assert order == front + [last];
    PickedThere(q, front, a);
    if b < |front| {
      PickedStable(q, front, a, b);
    }
    if q[order[a]].createdAt <= q[order[b]].createdAt && Eligible(q[last]) {
      InsertBefore(Picked(q, front), q[last], q[order[a]], q[order[b]]);
    }
  }

  lemma {:induction false} PickedThere(q: Queue, order: seq<string>, a: nat)
    requires forall key :: key in order ==> key in q
    requires a < |order| && Eligible(q[order[a]])
    ensures q[order[a]] in Picked(q, order)
  {
    var front, last := order[..|order| - 1], order[|order| - 1];
    assert order == front + [last];
    InsertMembers(Picked(q, front), q[last]);
    if a < |front| {
      PickedThere(q, front, a);
    }
  }

  // ----- errors -----

  const BLOCKING: seq<string> := ["review", "check", "required", "conflict", "pipeline", "not mergeable", "unsupported",
                                  "missing_repo", "requester token"]

  function ErrorText(error: string): string {
    var text := Strip(error);
    if |text| > 500 then text[..500] else text
  }

  function StatusAfter(error: string): Status {
    if exists k :: 0 <= k < |BLOCKING| && Contains(Lower(ErrorText(error)), BLOCKING[k]) then Blocked else Failed
  }

  /** A failed attempt blocks the entry exactly when one of the blocking words stands in the first 500 characters of
      its stripped error, whatever the case; otherwise the entry has failed. */
  lemma StatusAfterIff(error: string)
    ensures StatusAfter(error) == Blocked <==>
            exists k, i: nat :: 0 <= k < |BLOCKING| && StandsAt(Lower(ErrorText(error)), BLOCKING[k], i)
    ensures StatusAfter(error) != Blocked ==> StatusAfter(error) == Failed
    ensures ErrorText(error) <= Strip(error) && (ErrorText(error) == Strip(error) || |ErrorText(error)| == 500)
  {
    hide Contains, StandsAt, ErrorText, Lower, Strip;
    BlockingIff(Lower(ErrorText(error)));
    ErrorCut(error);
  }

  lemma BlockingIff(text: string)
    ensures (exists k :: 0 <= k < |BLOCKING| && Contains(text, BLOCKING[k])) <==>
            exists k, i: nat :: 0 <= k < |BLOCKING| && StandsAt(text, BLOCKING[k], i)
  {
    hide Contains, StandsAt;
    forall k | 0 <= k < |BLOCKING|
      ensures Contains(text, BLOCKING[k]) <==> exists i: nat :: StandsAt(text, BLOCKING[k], i)
    {
      ContainsIff(text, BLOCKING[k]);
    }
  }

  lemma ErrorCut(error: string)
    ensures ErrorText(error) <= Strip(error) && (ErrorText(error) == Strip(error) || |ErrorText(error)| == 500)
  {
    hide Strip;
  }

  // ----- enqueueing and inline actions -----

  /** An enqueued PR is pending its review mode, with no error and no override, and keeps the time it was first queued;
      no other entry changes. */
  lemma EnqueueMeaning(q: Queue, key: string, issue: string, project: string, repo: string, auto: bool, now: real)
    requires Keyed(q) && key != "" && Stripped(key)
    ensures var r := Enqueue(q, key, issue, project, repo, auto, now);
            && Keyed(r) && r.Keys == q.Keys + {key} && r - {key} == q - {key}
            && Concerns(r[key], issue, project) && r[key].repo == repo && r[key].auto == auto
            && r[key].status == (if auto then PendingAutoMerge else PendingManualReview)
            && !r[key].manualOverride && r[key].lastError == "" && r[key].updatedAt == now
            && (key in q ==> r[key].createdAt == q[key].createdAt) && (key !in q ==> r[key].createdAt == now)
  {
    hide Stripped;
  }

  /** An inline action changes exactly the issue's entries in a state it is for: approving manual reviews, retrying
      blocked and failed entries, merging any of these now. A retry puts the entry back to its own review mode, the
      others ask for a merge whatever the mode. */
  lemma ActMeaning(q: Queue, action: Action, issue: string, project: string, lost: set<string>, now: real, key: string)
    requires key in q
    ensures var e, r := q[key], Act(q, action, issue, project, lost, now);
            var stopped := e.status == Blocked || e.status == Failed;
            var changes := e.issue == issue && e.project == project && key !in lost &&
                           ((action != Retry && e.status == PendingManualReview) || (action != Approve && stopped));
            && r.Keys == q.Keys
            && r[key] == if !changes then e
                         else e.(status := if action == Retry && !e.auto then PendingManualReview else PendingAutoMerge,
                                 lastError := "", manualOverride := action != Retry, updatedAt := now)
  {
  }

  /** Whom this puts up for merging: an automatic entry by enqueueing or retrying it, any entry by approving it or
      merging
      it now; a manual one that is enqueued or retried waits for its review. */
  lemma PutUp(q: Queue, action: Action, issue: string, project: string, lost: set<string>, now: real, key: string)
    requires key in q && Concerns(q[key], issue, project) && key !in lost && Wanted(action, q[key]).Some?
    ensures Eligible(Act(q, action, issue, project, lost, now)[key]) <==> action != Retry || q[key].auto
    ensures forall repo, auto :: Eligible(Enqueue(q, key, issue, project, repo, auto, now)[key]) <==> auto
  {
  }

  // ----- the worker's steps -----

  /** How the attempt on one entry goes: an exception before the merge call, the call raising, or the call returning. */
  datatype Attempt = NotReached(error: string) | CallRaised(error: string) | CallReturned

  datatype Phase =
    | Idle
    | Working(rest: seq<Entry>)                                  // at the head of the loop
    | Marked(item: Entry, rest: seq<Entry>)                      // "merging" persisted, merge call ahead
    | Attempted(item: Entry, attempt: Attempt, rest: seq<Entry>) // attempt over, status not yet written

  datatype State = State(queue: Queue, phase: Phase, lastRunAt: real)

  datatype Event =
    | EnqueueEvent(prUrl: string, issue: string, project: string, repo: string, auto: bool, readable: bool, saved: bool)
    | ActEvent(action: Action, issue: string, project: string, lost: set<string>)
    | Start(order: seq<string>, readable: bool)
    | Take(parsed: bool, saved: bool)    // whether a PR number is found in the URL, and the status write arrives
    | TryMerge(attempt: Attempt)
    | Settle(saved: bool)
    | Finish
    | Crash(restarted: bool)             // an exception that escapes, or the process dying, at any point

  /** The keys an external event puts into pending_auto_merge. */
  ghost predicate Puts(q: Queue, e: Event, key: string) {
    match e
    case EnqueueEvent(prUrl, _, _, _, auto, _, saved) => auto && saved && key == Strip(prUrl) != ""
    case ActEvent(action, issue, project, lost) =>
      key in q && key !in lost && Concerns(q[key], issue, project) && Wanted(action, q[key]) == Some(PendingAutoMerge)
    case _ => false
  }

  function MarkedStatus(attempt: Attempt): Status {
    if attempt.CallReturned? then Merged else StatusAfter(attempt.error)
  }

  /** The status written before an attempt, or instead of one. */
  function TakenQueue(q: Queue, item: Entry, parsed: bool, now: real): Queue {
    if parsed then Update(q, item.prUrl, Merging, "", None, now)
    else Update(q, item.prUrl, Blocked, "unsupported_pr_url", None, now)
  }

  /** The status written after an attempt. */
  function Settled(q: Queue, item: Entry, attempt: Attempt, now: real): Queue {
    match attempt
    case CallReturned => Update(q, item.prUrl, Merged, "", Some(false), now)
    case _ =>
      var text := ErrorText(attempt.error);
      Update(q, item.prUrl, StatusAfter(attempt.error), if text != "" then text else "merge_error", None, now)
  }

  /** One step of the worker or of the outside; a step that is not enabled changes nothing. */
  ghost function Step(s: State, e: Event, now: real, interval: real): State {
    match e
    case EnqueueEvent(prUrl, issue, project, repo, auto, readable, saved) =>
      if Strip(prUrl) == "" then s
      else
        var written := Enqueue(Loaded(s.queue, readable), Strip(prUrl), issue, project, repo, auto, now);
        s.(queue := Stored(s.queue, written, saved))
    case ActEvent(action, issue, project, lost) => s.(queue := Act(s.queue, action, issue, project, lost, now))
    case Start(order, readable) =>
      if !s.phase.Idle? || now - s.lastRunAt < interval || !Lists(order, s.queue.Keys) then s
      else s.(phase := if readable then Working(Picked(s.queue, order)) else Idle, lastRunAt := now)
    case Take(parsed, saved) =>
      if !s.phase.Working? || s.phase.rest == [] then s
      else
        var item, rest := s.phase.rest[0], s.phase.rest[1..];
        State(Stored(s.queue, TakenQueue(s.queue, item, parsed, now), saved),
              if parsed then Marked(item, rest) else Working(rest), s.lastRunAt)
    case TryMerge(attempt) =>
      if s.phase.Marked? then s.(phase := Attempted(s.phase.item, attempt, s.phase.rest)) else s
    case Settle(saved) =>
      if !s.phase.Attempted? then s
      else s.(queue := Stored(s.queue, Settled(s.queue, s.phase.item, s.phase.attempt, now), saved),
          phase := Working(s.phase.rest))
    case Finish => if s.phase.Working? && s.phase.rest == [] then s.(phase := Idle) else s
    case Crash(restarted) => s.(phase := Idle, lastRunAt := if restarted then 0.0 else s.lastRunAt)
  }

  /** Does the step call the merge API for this key? */
  ghost predicate Calls(s: State, e: Event, key: string) {
    e.TryMerge? && !e.attempt.NotReached? && s.phase.Marked? && s.phase.item.prUrl == key
  }

  /** Is the key marked as merging while the store keeps it pending, because that write is lost? */
  ghost predicate LosesMark(s: State, e: Event, key: string) {
    e.Take? && e.parsed && !e.saved && s.phase.Working? && s.phase.rest != [] && s.phase.rest[0].prUrl == key
        && Pending(s.queue, key)
  }

  /** Does the attempt on the key end, by a crash or without its status being stored, with the entry still pending? */
  ghost predicate Reopens(s: State, e: Event, key: string) {
    Held(s.phase, key) && Pending(s.queue, key) && (e.Crash? || (e.Settle? && !e.saved && s.phase.Attempted?))
  }

  /** Is the entry pending only because its mark was lost? From the lost mark until the next put or the attempt's end.
      */
  ghost predicate OpenAfter(s: State, open: bool, e: Event, key: string) {
    if LosesMark(s, e, key) then true
    else open && !Puts(s.queue, e, key) && !e.Crash? && !(e.Settle? && s.phase.Attempted?)
  }

  datatype Timed = Timed(event: Event, now: real)

  ghost function Run(events: seq<Timed>, interval: real): State {
    if events == [] then State(map[], Idle, 0.0)
    else Step(Run(events[..|events| - 1], interval), events[|events| - 1].event, events[|events| - 1].now, interval)
  }

  /** How often a key was put into pending_auto_merge, and how often the merge API was called for it. */
  ghost function PutCount(events: seq<Timed>, interval: real, key: string): nat {
    if events == [] then 0
    else
      var before, e := events[..|events| - 1], events[|events| - 1].event;
      PutCount(before, interval, key) + if Puts(Run(before, interval).queue, e, key) then 1 else 0
  }

  ghost function CallCount(events: seq<Timed>, interval: real, key: string): nat {
    if events == [] then 0
    else
      var before, e := events[..|events| - 1], events[|events| - 1].event;
      CallCount(before, interval, key) + if Calls(Run(before, interval), e, key) then 1 else 0
  }

  /** How often the write of its "merging" status was lost. */
  ghost function LostMarkCount(events: seq<Timed>, interval: real, key: string): nat {
    if events == [] then 0
    else
      var before, e := events[..|events| - 1], events[|events| - 1].event;
      LostMarkCount(before, interval, key) + if LosesMark(Run(before, interval), e, key) then 1 else 0
  }

  ghost predicate LostOpen(events: seq<Timed>, interval: real, key: string) {
    events != [] &&
    var before, e := events[..|events| - 1], events[|events| - 1].event;
    OpenAfter(Run(before, interval), LostOpen(before, interval, key), e, key)
  }

  /** How often that left the entry pending beyond the attempt. */
  ghost function ReopenCount(events: seq<Timed>, interval: real, key: string): nat {
    if events == [] then 0
    else
      var before, e := events[..|events| - 1], events[|events| - 1].event;
      ReopenCount(before, interval, key)
      + if LostOpen(before, interval, key) && Reopens(Run(before, interval), e, key) then 1 else 0
  }

  // ----- at most one call per put -----

  ghost predicate InHand(items: seq<Entry>, key: string) {
    exists i :: 0 <= i < |items| && items[i].prUrl == key
  }

  ghost predicate Pending(q: Queue, key: string) { key in q && q[key].status == PendingAutoMerge }

  function Rest(phase: Phase): seq<Entry> { if phase.Idle? then [] else phase.rest }

  ghost predicate AtMarked(phase: Phase, key: string) { phase.Marked? && phase.item.prUrl == key }

  /** The worker is at work on the key. */
  ghost predicate Held(phase: Phase, key: string) {
    (phase.Marked? || phase.Attempted?) && phase.item.prUrl == key
  }

  /** Calls still to come without another put: one for an entry that is marked, one for one that is picked or pending,
      unless it is pending by a lost mark alone. */
  ghost function Due(s: State, open: bool, key: string): nat {
    (if AtMarked(s.phase, key) then 1 else 0)
        + (if !open && (InHand(Rest(s.phase), key) || Pending(s.queue, key)) then 1 else 0)
  }

  ghost predicate IsKey(key: string) { key != "" && Stripped(key) }

  /** What every state keeps: keyed entries, and distinct keys in hand. */
  ghost predicate Good(s: State) {
    && Keyed(s.queue)
    && OnePerKey(Rest(s.phase))
    && (forall x :: x in Rest(s.phase) ==> IsKey(x.prUrl))
    && (s.phase.Marked? || s.phase.Attempted? ==>
        IsKey(s.phase.item.prUrl) && !InHand(s.phase.rest, s.phase.item.prUrl))
  }

  lemma UpdateUnknown(q: Queue, key: string, status: Status, lastError: string, override: Option<bool>, now: real)
    requires IsKey(key) && key !in q
    ensures Update(q, key, status, lastError, override, now) == q
  {
    hide Strip, Stripped;
    assert Strip(key) == key;
  }

  lemma UpdateKnown(q: Queue, key: string, status: Status, lastError: string, override: Option<bool>, now: real)
    requires Keyed(q) && key in q
    ensures var r := Update(q, key, status, lastError, override, now);
            && Keyed(r) && r.Keys == q.Keys && r - {key} == q - {key}
            && r[key] == q[key].(status := status, lastError := lastError, updatedAt := now,
                                 manualOverride := if override.Some? then override.value else q[key].manualOverride)
  {
    hide Strip, Stripped;
    assert Strip(key) == key;
  }

  /** Taking an item: its entry, unless dropped meanwhile, is marked or blocked if that write arrives, and it leaves
      the rest, which does not name its key again. */
  lemma Taken(s: State, parsed: bool, saved: bool, now: real, interval: real)
    requires Good(s) && s.phase.Working? && s.phase.rest != []
    ensures var s', item := Step(s, Take(parsed, saved), now, interval), s.phase.rest[0];
            var key := item.prUrl;
            && Keyed(s'.queue) && s'.queue.Keys == s.queue.Keys
            && (if saved && key in s.queue then s'.queue[key].status == (if parsed then Merging else Blocked)
                else s'.queue == s.queue)
            && (forall k :: k in s.queue && k != key ==> s'.queue[k] == s.queue[k])
            && s'.phase == (if parsed then Marked(item, s.phase.rest[1..]) else Working(s.phase.rest[1..]))
            && OnePerKey(s.phase.rest[1..]) && (forall x :: x in s.phase.rest[1..] ==> x in s.phase.rest)
            && (forall k :: InHand(s.phase.rest[1..], k) <==> InHand(s.phase.rest, k) && k != key)
  {
    hide Update, Keyed, IsKey;
    var item, rest := s.phase.rest[0], s.phase.rest[1..];
    assert item in s.phase.rest;
    RestWithout(s.phase.rest);
    if item.prUrl in s.queue {
      UpdateKnown(s.queue, item.prUrl, Merging, "", None, now);
      UpdateKnown(s.queue, item.prUrl, Blocked, "unsupported_pr_url", None, now);
      var q := TakenQueue(s.queue, item, parsed, now);
      forall k | k in s.queue && k != item.prUrl ensures q[k] == s.queue[k] {
        assert q[k] == (q - {item.prUrl})[k] && s.queue[k] == (s.queue - {item.prUrl})[k];
      }
    } else {
      UpdateUnknown(s.queue, item.prUrl, Merging, "", None, now);
      UpdateUnknown(s.queue, item.prUrl, Blocked, "unsupported_pr_url", None, now);
    }
  }

  lemma RestWithout(items: seq<Entry>)
    requires items != [] && OnePerKey(items)
    ensures OnePerKey(items[1..])
    ensures forall k :: InHand(items[1..], k) <==> InHand(items, k) && k != items[0].prUrl
  {
    var rest := items[1..];
    assert forall i :: 0 <= i < |rest| ==> rest[i] == items[i + 1];
    forall k ensures InHand(rest, k) <==> InHand(items, k) && k != items[0].prUrl {
      if i :| 0 <= i < |items| && items[i].prUrl == k && k != items[0].prUrl {
        assert rest[i - 1].prUrl == k;
      }
    }
  }

  lemma StepGood(s: State, e: Event, now: real, interval: real)
    requires Good(s)
    ensures Good(Step(s, e, now, interval))
  {
    hide Strip, Picked, Eligible, StatusAfter, ErrorText, Update, Stripped, TakenQueue, Settled;
    match e
    case Start(order, readable) =>
      if Lists(order, s.queue.Keys) { PickedMeaning(s.queue, order); }
    case Take(parsed, saved) =>
      if s.phase.Working? && s.phase.rest != [] { Taken(s, parsed, saved, now, interval); }
    case Settle(saved) =>
      if s.phase.Attempted? { SettledEntry(s.queue, s.phase.item, s.phase.attempt, now); }
    case EnqueueEvent(prUrl, _, _, _, _, _, _) => assert Strip(Strip(prUrl)) == Strip(prUrl);
    case _ =>
  }

  /** Settling an item changes no other entry, and none at all when its entry was dropped meanwhile. */
  lemma SettledEntry(q: Queue, item: Entry, attempt: Attempt, now: real)
    requires Keyed(q) && IsKey(item.prUrl)
    ensures var r, key := Settled(q, item, attempt, now), item.prUrl;
            && Keyed(r) && r.Keys == q.Keys
            && (key in q ==> r[key].status == MarkedStatus(attempt) && r[key].status in {Merged, Blocked, Failed})
            && (forall k :: k in q && k != key ==> r[k] == q[k])
  {
    hide Update, Keyed, IsKey, MarkedStatus, StatusAfter, ErrorText;
    var key := item.prUrl;
    if key in q {
      SettledStatus(q, item, attempt, now);
      var r := Settled(q, item, attempt, now);
      forall k | k in q && k != key ensures r[k] == q[k] {
        assert r[k] == (r - {key})[k] && q[k] == (q - {key})[k];
      }
    } else {
      UpdateUnknown(q, key, Merged, "", Some(false), now);
      if !attempt.CallReturned? {
        var text := ErrorText(attempt.error);
        UpdateUnknown(q, key, StatusAfter(attempt.error), if text != "" then text else "merge_error", None, now);
      }
    }
  }

  /** The error an entry is left with. */
  function Remark(parsed: bool, attempt: Attempt): string {
    if !parsed then "unsupported_pr_url"
    else if attempt.CallReturned? then ""
    else if ErrorText(attempt.error) != "" then ErrorText(attempt.error)
    else "merge_error"
  }

  lemma SettledStatus(q: Queue, item: Entry, attempt: Attempt, now: real)
    requires Keyed(q) && item.prUrl in q
    ensures var r, key := Settled(q, item, attempt, now), item.prUrl;
            && Keyed(r) && r.Keys == q.Keys && r - {key} == q - {key}
            && r[key] == q[key].(status := MarkedStatus(attempt), lastError := Remark(true, attempt), updatedAt := now,
                                 manualOverride := q[key].manualOverride && !attempt.CallReturned?)
            && r[key].status in {Merged, Blocked, Failed}
  {
    hide StatusAfter, ErrorText, Update, Keyed;
    var text := if attempt.CallReturned? then "" else ErrorText(attempt.error);
    var lastError := if text != "" then text else "merge_error";
    UpdateKnown(q, item.prUrl, Merged, "", Some(false), now);
    if !attempt.CallReturned? {
      UpdateKnown(q, item.prUrl, StatusAfter(attempt.error), lastError, None, now);
      assert StatusAfter(attempt.error) in {Blocked, Failed} by { BlockedOrFailed(attempt.error); }
    }
  }

  lemma BlockedOrFailed(error: string)
    ensures StatusAfter(error) in {Blocked, Failed}
  {
    hide ErrorText, Contains;
  }

  /** A step makes no more calls due than it puts entries up or leaves open, and a call uses up one that was due. */
  ghost predicate Credited(s: State, open: bool, e: Event, now: real, interval: real, key: string) {
    var s', open' := Step(s, e, now, interval), OpenAfter(s, open, e, key);
    && (open' ==> Held(s'.phase, key))
    && Due(s', open', key) + (if Calls(s, e, key) then 1 else 0)
       <= Due(s, open, key) + (if Puts(s.queue, e, key) then 1 else 0) + (if open && Reopens(s, e, key) then 1 else 0)
  }

  lemma StepCredit(s: State, open: bool, e: Event, now: real, interval: real, key: string)
    requires Good(s) && (open ==> Held(s.phase, key))
    ensures Credited(s, open, e, now, interval, key)
  {
    if e.EnqueueEvent? || e.ActEvent? {
      OutsideCredit(s, open, e, now, interval, key);
    } else if e.Start? {
      StartCredit(s, open, e, now, interval, key);
    } else if e.Take? {
      TakeCredit(s, open, e, now, interval, key);
    } else {
      AttemptCredit(s, open, e, now, interval, key);
    }
  }

  lemma OutsideCredit(s: State, open: bool, e: Event, now: real, interval: real, key: string)
    requires (e.EnqueueEvent? || e.ActEvent?) && (open ==> Held(s.phase, key))
    ensures Credited(s, open, e, now, interval, key)
  {
    hide Strip, InHand;
  }

  lemma StartCredit(s: State, open: bool, e: Event, now: real, interval: real, key: string)
    requires e.Start? && Good(s) && (open ==> Held(s.phase, key))
    ensures Credited(s, open, e, now, interval, key)
  {
    hide Picked, Stripped;
    if Lists(e.order, s.queue.Keys) {
      PickedMeaning(s.queue, e.order);
      assert InHand(Picked(s.queue, e.order), key) ==> Pending(s.queue, key);
    }
  }

  lemma TakeCredit(s: State, open: bool, e: Event, now: real, interval: real, key: string)
    requires e.Take? && Good(s) && (open ==> Held(s.phase, key))
    ensures Credited(s, open, e, now, interval, key)
  {
    hide TakenQueue, Keyed, OnePerKey, InHand, IsKey;
    if s.phase.Working? && s.phase.rest != [] {
      Taken(s, e.parsed, e.saved, now, interval);
      assert InHand(s.phase.rest, s.phase.rest[0].prUrl) by { FirstInHand(s.phase.rest); }
    }
  }

  lemma FirstInHand(items: seq<Entry>)
    requires items != []
    ensures InHand(items, items[0].prUrl)
  {
  }

  lemma AttemptCredit(s: State, open: bool, e: Event, now: real, interval: real, key: string)
    requires (e.TryMerge? || e.Settle? || e.Finish? || e.Crash?) && Good(s) && (open ==> Held(s.phase, key))
    ensures Credited(s, open, e, now, interval, key)
  {
    hide Settled, Keyed, OnePerKey, IsKey, MarkedStatus;
    if e.Settle? && s.phase.Attempted? {
      SettledEntry(s.queue, s.phase.item, s.phase.attempt, now);
    }
  }

  lemma {:induction false} RunGood(events: seq<Timed>, interval: real)
    ensures Good(Run(events, interval))
  {
    hide Step, Good;
    if events == [] {
      assert Good(State(map[], Idle, 0.0)) by { NothingGood(); }
    } else {
      RunGood(events[..|events| - 1], interval);
      StepGood(Run(events[..|events| - 1], interval), events[|events| - 1].event, events[|events| - 1].now, interval);
    }
  }

  lemma NothingGood()
    ensures Good(State(map[], Idle, 0.0))
  {
  }

  /** Over every run, with enqueues, inline actions, lost writes and crashes between any two steps, the merge API is
      called for a PR at most as often as the PR was put into pending_auto_merge, or a lost "merging" mark left it
      there beyond its attempt; what is still due is covered as well. */
  lemma {:induction false} CallsCovered(events: seq<Timed>, interval: real, key: string)
    ensures LostOpen(events, interval, key) ==> Held(Run(events, interval).phase, key)
    ensures CallCount(events, interval, key) + Due(Run(events, interval), LostOpen(events, interval, key), key)
         <= PutCount(events, interval, key) + ReopenCount(events, interval, key)
  {
    hide Step, Due, Calls, Puts, Reopens, OpenAfter, Held;
    if events == [] {
      assert Due(State(map[], Idle, 0.0), false, key) == 0 by { NothingDue(key); }
    } else {
      var before, last := events[..|events| - 1], events[|events| - 1];
      CallsCovered(before, interval, key);
      RunGood(before, interval);
      StepCredit(Run(before, interval), LostOpen(before, interval, key), last.event, last.now, interval, key);
    }
  }

  /** No more attempts end that way than marks are lost. */
  lemma {:induction false} ReopensAreLostMarks(events: seq<Timed>, interval: real, key: string)
    ensures ReopenCount(events, interval, key) + (if LostOpen(events, interval, key) then 1 else 0)
         <= LostMarkCount(events, interval, key)
  {
    hide Run, LosesMark, Held, Puts;
    if events != [] {
      ReopensAreLostMarks(events[..|events| - 1], interval, key);
      NotBoth(Run(events[..|events| - 1], interval), events[|events| - 1].event, key);
    }
  }

  lemma NotBoth(s: State, e: Event, key: string)
    ensures !(LosesMark(s, e, key) && Reopens(s, e, key))
  {
  }

  /** So without a lost mark there is at most one merge call for each time the PR was put up. */
  lemma {:induction false} OneCallPerPut(events: seq<Timed>, interval: real, key: string)
    requires forall i :: 0 <= i < |events| && events[i].event.Take? ==> events[i].event.saved
    ensures CallCount(events, interval, key) <= PutCount(events, interval, key)
  {
    hide Run;
    CallsCovered(events, interval, key);
    ReopensAreLostMarks(events, interval, key);
    NoLostMarks(events, interval, key);
  }

  lemma {:induction false} NoLostMarks(events: seq<Timed>, interval: real, key: string)
    requires forall i :: 0 <= i < |events| && events[i].event.Take? ==> events[i].event.saved
    ensures LostMarkCount(events, interval, key) == 0
  {
    if events != [] {
      NoLostMarks(events[..|events| - 1], interval, key);
    }
  }

  /** And the lost marks count: a pass over a pending entry that loses both of its writes calls the merge API and leaves
      the queue as it was, so that the next pass calls it again. */
  lemma LostMarkRepeats(s: State, key: string, now: real, interval: real)
    requires Good(s) && s.phase.Idle? && s.queue.Keys == {key} && Eligible(s.queue[key])
             && now - s.lastRunAt >= interval
    ensures var s1 := Step(s, Start([key], true), now, interval);
            var s2 := Step(s1, Take(true, false), now, interval);
            var s3 := Step(s2, TryMerge(CallReturned), now, interval);
            var s4 := Step(s3, Settle(false), now, interval);
            && Calls(s2, TryMerge(CallReturned), key)
            && Step(s4, Finish, now, interval) == s.(lastRunAt := now)
  {
    hide Update, Settled, TakenQueue, Strip, Stripped;
    assert Lists([key], s.queue.Keys);
    assert [key][..0] == [];
    assert Picked(s.queue, []) == [];
    assert Picked(s.queue, [key]) == [s.queue[key]];
  }

  lemma NothingDue(key: string)
    ensures Due(State(map[], Idle, 0.0), false, key) == 0
  {
  }

  // ----- interrupted entries -----

  /** The entry is `merging` on disk and the worker does not hold it: it was interrupted. */
  ghost predicate Interrupted(s: State, key: string) {
    && key in s.queue && s.queue[key].status == Merging
    && !InHand(Rest(s.phase), key)
    && (s.phase.Marked? || s.phase.Attempted? ==> s.phase.item.prUrl != key)
  }

  /** The one way out for an interrupted entry: a stored enqueue of its PR, or of any PR while the queue cannot be
      read, which drops all other entries. */
  ghost predicate Releases(e: Event, key: string) {
    e.EnqueueEvent? && e.saved && Strip(e.prUrl) != "" && (Strip(e.prUrl) == key || !e.readable)
  }

  /** An entry interrupted after being marked is left alone, by the worker and by every inline action, exactly until
      that happens; in particular it is never merged twice before. */
  lemma InterruptedIff(s: State, e: Event, now: real, interval: real, key: string)
    requires Good(s) && Interrupted(s, key)
    ensures Interrupted(Step(s, e, now, interval), key) <==> !Releases(e, key)
    ensures !Calls(s, e, key)
  {
    hide Strip, Picked, StatusAfter, ErrorText, Update, Stripped, Settled, TakenQueue;
    match e
    case Start(order, readable) =>
      if Lists(order, s.queue.Keys) { PickedMeaning(s.queue, order); }
    case Take(parsed, saved) =>
      if s.phase.Working? && s.phase.rest != [] { Taken(s, parsed, saved, now, interval); }
    case Settle(saved) =>
      if s.phase.Attempted? { SettledEntry(s.queue, s.phase.item, s.phase.attempt, now); }
    case _ =>
  }

  /** Such entries arise: by a crash at any point between a stored mark and the attempt's stored status. */
  lemma InterruptedArises(s: State, key: string, attempt: Attempt, restarted: bool, now: real, interval: real)
    requires Good(s) && s.phase.Working? && s.phase.rest != [] && s.phase.rest[0].prUrl == key && key in s.queue
    ensures var marked := Step(s, Take(true, true), now, interval);
            var attempted := Step(marked, TryMerge(attempt), now, interval);
            && Interrupted(Step(marked, Crash(restarted), now, interval), key)
            && Interrupted(Step(attempted, Crash(restarted), now, interval), key)
            && Interrupted(Step(Step(attempted, Settle(false), now, interval), Crash(restarted), now, interval), key)
  {
    hide Strip, Update, TakenQueue, Settled;
    Taken(s, true, true, now, interval);
  }

  // ----- the throttle -----

  /** The event starts a pass, one that then cannot load the queue included. */
  ghost predicate Starts(s: State, e: Event, now: real, interval: real) {
    e.Start? && s.phase.Idle? && now - s.lastRunAt >= interval && Lists(e.order, s.queue.Keys)
  }

  /** The event is the start of a pass in its run. */
  ghost predicate StartsAt(events: seq<Timed>, i: nat, interval: real)
    requires i < |events|
  {
    Starts(Run(events[..i], interval), events[i].event, events[i].now, interval)
  }

  /** The clock never goes back, and the process is not restarted between i and n. */
  ghost predicate Continuous(events: seq<Timed>, i: nat, n: nat)
    requires i <= n <= |events|
  {
    && (forall k :: i <= k < n ==> !(events[k].event.Crash? && events[k].event.restarted))
    && (forall k, l :: i <= k <= l < n ==> events[k].now <= events[l].now)
  }

  /** The worker remembers its last pass until it is restarted. */
  lemma {:induction false} PassRemembered(events: seq<Timed>, i: nat, n: nat, interval: real)
    requires i < n <= |events| && StartsAt(events, i, interval) && Continuous(events, i, n)
    ensures Run(events[..n], interval).lastRunAt >= events[i].now
  {
    hide Run, Step, Starts;
    RunStep(events, n - 1, interval);
    LastRunStep(Run(events[..n - 1], interval), events[n - 1].event, events[n - 1].now, interval);
    if i < n - 1 {
      PassRemembered(events, i, n - 1, interval);
    }
  }

  lemma LastRunStep(s: State, e: Event, now: real, interval: real)
    ensures Step(s, e, now, interval).lastRunAt ==
            if Starts(s, e, now, interval) then now
            else if e.Crash? && e.restarted then 0.0 else s.lastRunAt
  {
    hide Stored, TakenQueue, Settled, Picked, Act, Enqueue, Lists;
  }

  lemma RunStep(events: seq<Timed>, n: nat, interval: real)
    requires n < |events|
    ensures Run(events[..n + 1], interval)
         == Step(Run(events[..n], interval), events[n].event, events[n].now, interval)
  {
    hide Step;
    assert events[..n + 1][..n] == events[..n] && events[..n + 1][n] == events[n];
  }

  /** So two passes of one process are at least the interval apart, whatever happens in between. */
  lemma PassesSpaced(events: seq<Timed>, i: nat, j: nat, interval: real)
    requires i < j < |events| && Continuous(events, i, j + 1)
    requires StartsAt(events, i, interval) && StartsAt(events, j, interval)
    ensures events[j].now - events[i].now >= interval
  {
    hide Run;
    PassRemembered(events, i, j, interval);
  }

  /** And a pass that is due starts: it works through the picked entries if the queue can be loaded. */
  lemma DueStarts(s: State, order: seq<string>, readable: bool, now: real, interval: real)
    requires s.phase.Idle? && Lists(order, s.queue.Keys)
    ensures var s' := Step(s, Start(order, readable), now, interval);
            if now - s.lastRunAt < interval then s' == s
            else s' == State(s.queue, if readable then Working(Picked(s.queue, order)) else Idle, now)
  {
    hide Picked;
  }

  // ----- one uninterrupted pass -----

  /** How one entry goes: whether its URL names a PR, the attempt, and which of the two status writes arrive; an entry
      without a PR number has only the second. */
  datatype ItemAnswer = ItemAnswer(parsed: bool, attempt: Attempt, markSaved: bool, saved: bool)

  function HandleItem(q: Queue, item: Entry, a: ItemAnswer, now: real): Queue {
    if !a.parsed then Stored(q, TakenQueue(q, item, false, now), a.saved)
    else
      var marked := Stored(q, TakenQueue(q, item, true, now), a.markSaved);
      Stored(marked, Settled(marked, item, a.attempt, now), a.saved)
  }

  function PassOver(q: Queue, items: seq<Entry>, answers: string -> ItemAnswer, now: real): Queue {
    if items == [] then q
    else
      var last := items[|items| - 1];
      HandleItem(PassOver(q, items[..|items| - 1], answers, now), last, answers(last.prUrl), now)
  }

  /** The worker's three steps on an entry do what handling it at once does. */
  lemma StepsHandle(s: State, item: Entry, rest: seq<Entry>, a: ItemAnswer, now: real, interval: real)
    requires s.phase == Working([item] + rest)
    ensures var taken := Step(s, Take(a.parsed, if a.parsed then a.markSaved else a.saved), now, interval);
            var settled := Step(Step(taken, TryMerge(a.attempt), now, interval), Settle(a.saved), now, interval);
            (if a.parsed then settled else taken)
                == s.(queue := HandleItem(s.queue, item, a, now), phase := Working(rest))
  {
    hide TakenQueue, Settled;
    assert ([item] + rest)[1..] == rest;
  }

  /** The status a handled entry ends with. */
  function Outcome(e: Entry, a: ItemAnswer): Status {
    if a.saved then if a.parsed then MarkedStatus(a.attempt) else Blocked
    else if a.parsed && a.markSaved then Merging
    else e.status
  }

  /** The whole entry it ends with. */
  function Final(e: Entry, a: ItemAnswer, now: real): Entry {
    if a.saved then
      e.(status := Outcome(e, a), lastError := Remark(a.parsed, a.attempt), updatedAt := now,
         manualOverride := e.manualOverride && !(a.parsed && a.attempt.CallReturned?))
    else if a.parsed && a.markSaved then e.(status := Merging, lastError := "", updatedAt := now)
    else e
  }

  lemma {:induction false} PassOverMeaning(q: Queue, items: seq<Entry>, answers: string -> ItemAnswer, now: real)
    requires Keyed(q) && OnePerKey(items) && forall e :: e in items ==> e.prUrl in q && q[e.prUrl] == e
    ensures var r := PassOver(q, items, answers, now);
            && Keyed(r) && r.Keys == q.Keys
            && (forall key :: key in q && !InHand(items, key) ==> r[key] == q[key])
            && (forall e :: e in items ==> r[e.prUrl] == Final(e, answers(e.prUrl), now))
  {
    hide Keyed, Final, InHand, HandleItem;
    if items != [] {
      var front, last := items[..|items| - 1], items[|items| - 1];
      assert items == front + [last];
      PassOverMeaning(q, front, answers, now);
      var before, r := PassOver(q, front, answers, now), PassOver(q, items, answers, now);
      assert !InHand(front, last.prUrl) by { LastAlone(front, last); }
      assert before[last.prUrl] == last;
      HandleMeaning(before, last, answers(last.prUrl), now);
      forall key | key in q && key != last.prUrl ensures r[key] == before[key] {
        assert r[key] == (r - {last.prUrl})[key] && before[key] == (before - {last.prUrl})[key];
      }
      assert forall e :: e in front ==> e.prUrl != last.prUrl;
      forall key ensures InHand(items, key) <==> InHand(front, key) || key == last.prUrl {
        InHandSnoc(front, last, key);
      }
    }
  }

  lemma LastAlone(front: seq<Entry>, last: Entry)
    requires OnePerKey(front + [last])
    ensures !InHand(front, last.prUrl)
  {
    var items := front + [last];
    assert items[|front|] == last && forall i :: 0 <= i < |front| ==> items[i] == front[i];
  }

  lemma InHandSnoc(front: seq<Entry>, last: Entry, key: string)
    ensures InHand(front + [last], key) <==> InHand(front, key) || key == last.prUrl
  {
    var items := front + [last];
    assert items[|front|] == last && forall i :: 0 <= i < |front| ==> items[i] == front[i];
  }

  lemma HandleMeaning(q: Queue, item: Entry, a: ItemAnswer, now: real)
    requires Keyed(q) && item.prUrl in q && q[item.prUrl] == item
    ensures var r, key := HandleItem(q, item, a, now), item.prUrl;
            && Keyed(r) && r.Keys == q.Keys && r - {key} == q - {key}
            && r[key] == Final(item, a, now)
  {
    hide Update, Settled, Keyed, MarkedStatus, Remark;
    assert Remark(false, a.attempt) == "unsupported_pr_url" by { Unsupported(a.attempt); }
    UpdateKnown(q, item.prUrl, Blocked, "unsupported_pr_url", None, now);
    UpdateKnown(q, item.prUrl, Merging, "", None, now);
    SettledStatus(q, item, a.attempt, now);
    SettledStatus(Update(q, item.prUrl, Merging, "", None, now), item, a.attempt, now);
  }

  lemma Unsupported(attempt: Attempt)
    ensures Remark(false, attempt) == "unsupported_pr_url"
  {
  }

  /** A pass that runs through leaves every eligible entry with its outcome, merged, blocked or failed unless the last
      write is lost, and every other entry as it was. */
  lemma PassMeaning(q: Queue, order: seq<string>, answers: string -> ItemAnswer, now: real)
    requires Keyed(q) && Lists(order, q.Keys)
    ensures var r := PassOver(q, Picked(q, order), answers, now);
            && r.Keys == q.Keys
            && forall key :: key in q ==>
                 if Eligible(q[key]) then
                   r[key] == Final(q[key], answers(key), now)
                       && (r[key].status in {Merged, Blocked, Failed} <==> answers(key).saved)
                 else r[key] == q[key]
  {
    hide PassOver, Picked, StatusAfter, Stripped;
    var items := Picked(q, order);
    PickedMeaning(q, order);
    PassOverMeaning(q, items, answers, now);
    forall key | key in q
      ensures var r := PassOver(q, items, answers, now);
              if Eligible(q[key]) then
                r[key] == Final(q[key], answers(key), now)
                    && (r[key].status in {Merged, Blocked, Failed} <==> answers(key).saved)
              else r[key] == q[key]
    {
      if Eligible(q[key]) {
        assert q[key] in items;
        BlockedOrFailed(if answers(key).attempt.CallReturned? then "" else answers(key).attempt.error);
      } else {
        assert InHand(items, key) ==> exists e :: e in items && e.prUrl == key;
      }
    }
  }
}

/** The host's persisted merge queue and the worker object. */
module MergeWorker {
  import opened Text
  import M = MergeQueue

  class HostState {
    var mergeQueue: M.Queue

    constructor ()
      ensures mergeQueue == map[]
    {
      mergeQueue := map[];
    }

    /** enqueue_merge_candidate; false for a blank URL. While the file cannot be read, the new entry replaces all. */
    method EnqueueMergeCandidate(issue: string, project: string, repo: string, prUrl: string, mode: string,
                                 readable: bool, saved: bool, now: real)
      returns (ok: bool)
      requires M.Keyed(mergeQueue)
      modifies this
      ensures M.Keyed(mergeQueue) && (ok <==> Strip(prUrl) != "")
      ensures var loaded, auto := M.Loaded(old(mergeQueue), readable), Lower(Strip(mode)) == "auto";
              var written := M.Enqueue(loaded, Strip(prUrl), issue, project, repo, auto, now);
              mergeQueue == M.Stored(old(mergeQueue), written, ok && saved)
    {
      hide Strip, Lower, Stripped;
      var key := Strip(prUrl);
      if key == "" { return false; }
      var normalized := Lower(Strip(mode));
      if normalized !in {"manual", "auto"} { normalized := "manual"; }
      var queue := M.Loaded(mergeQueue, readable);
      var createdAt := if key in queue then queue[key].createdAt else now;
      var status := if normalized == "auto" then M.PendingAutoMerge else M.PendingManualReview;
      queue := queue[key := M.Entry(key, issue, project, repo, normalized == "auto", status, false, createdAt, now,
          "")];
      SaveMergeQueue(queue, saved);
      ok := true;
    }

    /** save_merge_queue: a failing save is swallowed. */
    method SaveMergeQueue(queue: M.Queue, saved: bool)
      modifies this
      ensures mergeQueue == M.Stored(old(mergeQueue), queue, saved)
    {
      if saved { mergeQueue := queue; }
    }

    /** update_merge_candidate; `saved` is whether its file is read and written. */
    method UpdateMergeCandidate(prUrl: string, status: M.Status, lastError: string, override: Option<bool>,
                                saved: bool, now: real)
      modifies this
      ensures mergeQueue == M.Stored(old(mergeQueue),
              M.Update(old(mergeQueue), prUrl, status, lastError, override, now), saved)
    {
      hide Strip;
      var key := Strip(prUrl);
      if key == "" { return; }
      var queue := mergeQueue;
      if key !in queue { return; }
      var updated := queue[key].(status := status, lastError := lastError);
      if override.Some? { updated := updated.(manualOverride := override.value); }
      SaveMergeQueue(queue[key := updated.(updatedAt := now)], saved);
    }
  }

  /** The keys the merge API is called for, in order. */
  function CallKeys(items: seq<M.Entry>, answers: string -> M.ItemAnswer): seq<string> {
    if items == [] then []
    else
      var last := items[|items| - 1];
      var a := answers(last.prUrl);
      CallKeys(items[..|items| - 1], answers) + if a.parsed && !a.attempt.NotReached? then [last.prUrl] else []
  }

  class Worker {
    var lastRunAt: real
    const state: HostState
    const interval: real

    constructor (state: HostState, interval: real)
      ensures lastRunAt == 0.0 && this.state == state && this.interval == interval
    {
      lastRunAt, this.state, this.interval := 0.0, state, interval;
    }

    /** The loop body: true when the merge API was called. */
    method HandleOne(item: M.Entry, a: M.ItemAnswer, now: real) returns (called: bool)
      modifies state
      ensures state.mergeQueue == M.HandleItem(old(state.mergeQueue), item, a, now)
      ensures called <==> a.parsed && !a.attempt.NotReached?
    {
      hide M.Update, M.StatusAfter, M.ErrorText;
      if !a.parsed {
        state.UpdateMergeCandidate(item.prUrl, M.Blocked, "unsupported_pr_url", None, a.saved, now);
        return false;
      }
      state.UpdateMergeCandidate(item.prUrl, M.Merging, "", None, a.markSaved, now);
      if a.attempt.CallReturned? {
        state.UpdateMergeCandidate(item.prUrl, M.Merged, "", Some(false), a.saved, now);
        return true;
      }
      var text := M.ErrorText(a.attempt.error);
      var lastError := if text != "" then text else "merge_error";
      state.UpdateMergeCandidate(item.prUrl, M.StatusAfter(a.attempt.error), lastError, None, a.saved, now);
      called := a.attempt.CallRaised?;
    }

    /** merge_queue_auto_merge_once_with_token_resolver, run through; `readable` is whether the queue could be loaded.
        */
    method AutoMergeOnce(now: real, order: seq<string>, readable: bool, answers: string -> M.ItemAnswer)
      returns (calls: seq<string>)
      requires Lists(order, state.mergeQueue.Keys)
      modifies this, state
      ensures lastRunAt == if now - old(lastRunAt) < interval then old(lastRunAt) else now
      ensures var run := now - old(lastRunAt) >= interval && readable;
              var picked := M.Picked(old(state.mergeQueue), order);
              && state.mergeQueue == (if run then M.PassOver(old(state.mergeQueue), picked, answers, now)
                  else old(state.mergeQueue))
              && calls == if run then CallKeys(picked, answers) else []
    {
      hide M.HandleItem, M.Picked;
      calls := [];
      if now - lastRunAt < interval { return; }
      lastRunAt := now;
      if !readable { return; }
      ghost var q := state.mergeQueue;
      var pending := M.Picked(state.mergeQueue, order);
      for i := 0 to |pending|
        invariant state.mergeQueue == M.PassOver(q, pending[..i], answers, now)
        invariant calls == CallKeys(pending[..i], answers) && lastRunAt == now
      {
        assert pending[..i + 1][..i] == pending[..i];
        var item := pending[i];
        var a := answers(item.prUrl);
        var called := HandleOne(item, a, now);
        if called { calls := calls + [item.prUrl]; }
      }
      assert pending[..|pending|] == pending;
    }
  }
}
