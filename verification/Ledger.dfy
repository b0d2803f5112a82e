/** The idempotency ledger: recorded keys, their digests, and what survives restarts and interrupted saves. */
module Ledger {
  import opened Text

  datatype Key = Key(issue: string, step: int, agent: string, event: string)

  /** The text that is hashed. */
  function Raw(k: Key): string { k.issue + ":" + Tail(k) }

  function Tail(k: Key): string { IntText(k.step) + ":" + (k.agent + ":" + k.event) }

  /** SHA-256 as an uninterpreted, collision-free digest. */
  datatype Digest = Sha256(text: string)

  function AsString(k: Key): Digest { Sha256(Raw(k)) }

  /** The digest separates keys whose issue and agent hold no colon; the event may. */
  lemma KeyInjective(k: Key, l: Key)
    requires ':' !in k.issue && ':' !in l.issue && ':' !in k.agent && ':' !in l.agent
    requires AsString(k) == AsString(l)
    ensures k == l
  {
    hide IntText;
    ColonSplit(k.issue, Tail(k), l.issue, Tail(l));
    ColonSplit(IntText(k.step), k.agent + ":" + k.event, IntText(l.step), l.agent + ":" + l.event);
    ColonSplit(k.agent, k.event, l.agent, l.event);
    ParsePrinted(k.step);
    ParsePrinted(l.step);
  }

  /** A colon in the agent makes two different keys one. */
  lemma ColonCollides(issue: string, step: int, a: string, b: string, c: string)
    ensures AsString(Key(issue, step, a + ":" + b, c)) == AsString(Key(issue, step, a, b + ":" + c))
    ensures Key(issue, step, a + ":" + b, c) != Key(issue, step, a, b + ":" + c)
  {
    hide IntText;
    assert a + ":" + b + ":" + c == a + ":" + (b + ":" + c);
    assert |a + ":" + b| > |a|;
  }

  // ----- the file -----

  datatype Content = Absent | Torn | Whole(seen: set<Digest>)

  /** The ledger file and the temporary file beside it. */
  datatype Disk = Disk(main: Content, tmp: Content)

  /** The filesystem save, cut after `steps` steps: open the temporary file, write and sync it, replace the ledger. */
  function SaveSteps(d: Disk, data: set<Digest>, steps: nat): Disk {
    if steps == 0 then d
    else if steps == 1 then d.(tmp := Torn)
    else if steps == 2 then d.(tmp := Whole(data))
    else Disk(Whole(data), Absent)
  }

  /** Wherever a save is cut, the ledger file is the old or the new one; it is the new one exactly when nothing was cut
      (or it was the same). */
  lemma SaveAtomic(d: Disk, data: set<Digest>, steps: nat)
    ensures SaveSteps(d, data, steps).main == d.main || SaveSteps(d, data, steps).main == Whole(data)
    ensures SaveSteps(d, data, steps).main == Whole(data) <==> steps >= 3 || d.main == Whole(data)
  {
  }

  /** What loading yields; an unreadable file counts as empty. */
  function LoadSeen(c: Content): set<Digest> { if c.Whole? then c.seen else {} }

  class IdempotencyLedger {
    var seen: set<Digest>
    var disk: Disk

    /** The ledger over an existing disk. */
    constructor (disk: Disk)
      ensures State() == Restarted(disk)
    {
      this.disk, seen := disk, LoadSeen(disk.main);
    }

    ghost function State(): Memory
      reads this
    {
      Memory(seen, disk)
    }

    method IsDuplicate(k: Key) returns (r: bool)
      ensures r == Duplicate(State(), k)
    {
      r := AsString(k) in seen;
    }

    /** record; `steps` says how far the save comes. The key is a duplicate from now on and no other key becomes one; a
        restart still knows a new key exactly when the save ran through, and then knows everything in memory. */
    method Record(k: Key, steps: nat)
      modifies this
      ensures State() == Recorded(old(State()), k, steps)
      ensures forall l :: Duplicate(State(), l) <==> Duplicate(old(State()), l) || AsString(l) == AsString(k)
      ensures Duplicate(old(State()), k) ==> State() == old(State())
      ensures !Duplicate(old(State()), k) ==>
                if steps >= 3 then LoadSeen(disk.main) == seen else disk.main == old(disk.main)
    {
      hide AsString;
      var digest := AsString(k);
      if digest !in seen {
        seen := seen + {digest};
        disk := SaveSteps(disk, seen, steps);
      }
    }
  }

  // ----- runs -----

  datatype Memory = Memory(seen: set<Digest>, disk: Disk)

  predicate Duplicate(m: Memory, k: Key) { AsString(k) in m.seen }

  function Restarted(d: Disk): Memory { Memory(LoadSeen(d.main), d) }

  function Recorded(m: Memory, k: Key, steps: nat): Memory {
    var digest := AsString(k);
    if digest in m.seen then m
    else Memory(m.seen + {digest}, SaveSteps(m.disk, m.seen + {digest}, steps))
  }

  /** Recording a key, its save cut after some steps (3 for a complete one), or a restart of the process. */
  datatype Event = Record(key: Key, steps: nat) | Restart

  function Step(m: Memory, e: Event): Memory {
    match e
    case Record(k, steps) => Recorded(m, k, steps)
    case Restart => Restarted(m.disk)
  }

  function Run(events: seq<Event>): Memory {
    if events == [] then Memory({}, Disk(Absent, Absent))
    else Step(Run(events[..|events| - 1]), events[|events| - 1])
  }

  ghost predicate WasRecorded(events: seq<Event>, k: Key) {
    exists i :: 0 <= i < |events| && events[i].Record? && AsString(events[i].key) == AsString(k)
  }

  ghost predicate AllSaved(events: seq<Event>) {
    forall i :: 0 <= i < |events| && events[i].Record? ==> events[i].steps >= 3
  }

  lemma RecordedSnoc(events: seq<Event>, e: Event, k: Key)
    ensures WasRecorded(events + [e], k) <==> WasRecorded(events, k) || (e.Record? && AsString(e.key) == AsString(k))
  {
    hide AsString;
    var all := events + [e];
    assert forall i :: 0 <= i < |events| ==> all[i] == events[i];
    assert all[|events|] == e;
  }

  /** Whatever is lost, nothing is called a duplicate that was not recorded, on disk or in memory, and the disk never
      knows more than the memory. */
  lemma {:induction false} NoFalseDuplicate(events: seq<Event>, k: Key)
    ensures Duplicate(Run(events), k) ==> WasRecorded(events, k)
    ensures LoadSeen(Run(events).disk.main) <= Run(events).seen
  {
    hide AsString;
    if events != [] {
      var front, last := events[..|events| - 1], events[|events| - 1];
      assert events == front + [last];
      NoFalseDuplicate(front, k);
      RecordedSnoc(front, last, k);
    }
  }

  /** With every save complete, a key is a duplicate exactly when it was recorded, across all restarts. */
  lemma {:induction false} DuplicateIffRecorded(events: seq<Event>, k: Key)
    requires AllSaved(events)
    ensures Duplicate(Run(events), k) <==> WasRecorded(events, k)
    ensures LoadSeen(Run(events).disk.main) == Run(events).seen
  {
    hide AsString;
    if events != [] {
      var front, last := events[..|events| - 1], events[|events| - 1];
      assert events == front + [last];
      assert AllSaved(front);
      DuplicateIffRecorded(front, k);
      RecordedSnoc(front, last, k);
    }
  }

  /** So a recorded key that is not called a duplicate points to a save that was cut. */
  lemma MissNeedsLostSave(events: seq<Event>, k: Key) returns (i: nat)
    requires WasRecorded(events, k) && !Duplicate(Run(events), k)
    ensures i < |events| && events[i].Record? && events[i].steps < 3
  {
    if AllSaved(events) {
      DuplicateIffRecorded(events, k);
    }
    i :| i < |events| && events[i].Record? && events[i].steps < 3;
  }

  // ----- what survives cut saves -----

  ghost predicate RecordsAt(events: seq<Event>, i: nat, k: Key)
    requires i < |events|
  {
    events[i].Record? && AsString(events[i].key) == AsString(k)
  }

  /** The i-th event replaces the ledger file: it records a key that is new in memory, and its save runs through. */
  ghost predicate Writes(events: seq<Event>, i: nat)
    requires i < |events|
  {
    events[i].Record? && events[i].steps >= 3 && !Duplicate(Run(events[..i]), events[i].key)
  }

  ghost predicate NoRestart(events: seq<Event>, from: nat, to: nat)
    requires to <= |events|
  {
    forall i :: from <= i < to ==> !events[i].Restart?
  }

  /** The key was recorded in the lifetime that still runs. */
  ghost predicate RecordedSinceRestart(events: seq<Event>, k: Key) {
    exists i :: 0 <= i < |events| && RecordsAt(events, i, k) && NoRestart(events, i, |events|)
  }

  /** The key was recorded, and the file replaced then or later in the same lifetime. */
  ghost predicate ReachedFile(events: seq<Event>, k: Key) {
    exists i, j :: 0 <= i <= j < |events| && RecordsAt(events, i, k) && Writes(events, j) && NoRestart(events, i, j)
  }

  lemma SinceRestartSnoc(events: seq<Event>, e: Event, k: Key)
    ensures RecordedSinceRestart(events + [e], k) <==>
            (e.Record? && AsString(e.key) == AsString(k)) || (!e.Restart? && RecordedSinceRestart(events, k))
  {
    hide AsString;
    var all, n := events + [e], |events|;
    assert all[n] == e && forall i :: 0 <= i < n ==> all[i] == events[i];
    if i :| 0 <= i < n + 1 && RecordsAt(all, i, k) && NoRestart(all, i, n + 1) {
      assert i < n ==> RecordsAt(events, i, k) && NoRestart(events, i, n);
    }
    if e.Record? && AsString(e.key) == AsString(k) {
      assert RecordsAt(all, n, k) && NoRestart(all, n, n + 1);
    }
    if i :| 0 <= i < n && RecordsAt(events, i, k) && NoRestart(events, i, n) && !e.Restart? {
      assert RecordsAt(all, i, k) && NoRestart(all, i, n + 1);
    }
  }

  lemma ReachedFileSnoc(events: seq<Event>, e: Event, k: Key)
    ensures ReachedFile(events + [e], k) <==>
            || ReachedFile(events, k)
            || (Writes(events + [e], |events|) && RecordedSinceRestart(events + [e], k))
  {
    hide RecordsAt, Writes, NoRestart;
    var all, n := events + [e], |events|;
    if i, j :| 0 <= i <= j < n + 1 && RecordsAt(all, i, k) && Writes(all, j) && NoRestart(all, i, j) {
      if j == n {
        NoRestartAfterRecord(all, i, j);
      } else {
        SameBefore(events, e, k, i, j);
      }
    }
    if i, j :| 0 <= i <= j < n && RecordsAt(events, i, k) && Writes(events, j) && NoRestart(events, i, j) {
      SameBefore(events, e, k, i, j);
    }
    if Writes(all, n) {
      if i :| 0 <= i < n + 1 && RecordsAt(all, i, k) && NoRestart(all, i, n + 1) {
        NoRestartAfterRecord(all, i, n);
      }
    }
  }

  lemma SameBefore(events: seq<Event>, e: Event, k: Key, i: nat, j: nat)
    requires i <= j < |events|
    ensures RecordsAt(events + [e], i, k) <==> RecordsAt(events, i, k)
    ensures Writes(events + [e], j) <==> Writes(events, j)
    ensures NoRestart(events + [e], i, j) <==> NoRestart(events, i, j)
  {
    hide AsString, Run;
    var all := events + [e];
    assert forall l :: 0 <= l <= j ==> all[l] == events[l];
    assert all[..j] == events[..j];
  }

  /** A writing event is no restart. */
  lemma NoRestartAfterRecord(events: seq<Event>, i: nat, j: nat)
    requires i <= j < |events| && Writes(events, j)
    ensures NoRestart(events, i, j) <==> NoRestart(events, i, j + 1)
  {
    hide Duplicate, Run;
  }

  /** Over every run with cut saves and restarts, exactly which keys are known. The file knows a key exactly when it was
      recorded and a complete save of some new key, its own or another, followed before the next restart; the memory
      knows that key too, and every key recorded since the last restart. */
  lemma {:induction false} KnownIff(events: seq<Event>, k: Key)
    ensures AsString(k) in LoadSeen(Run(events).disk.main) <==> ReachedFile(events, k)
    ensures Duplicate(Run(events), k) <==> ReachedFile(events, k) || RecordedSinceRestart(events, k)
  {
    hide AsString, ReachedFile, RecordedSinceRestart;
    if events == [] {
      NothingKnown(k);
    } else {
      var front, last := events[..|events| - 1], events[|events| - 1];
      assert events == front + [last];
      KnownIff(front, k);
      SinceRestartSnoc(front, last, k);
      ReachedFileSnoc(front, last, k);
    }
  }

  lemma NothingKnown(k: Key)
    ensures !ReachedFile([], k) && !RecordedSinceRestart([], k)
  {
  }

  /** Recording again does not repair a cut save: the digest is in memory, so nothing is written, and a restart right
      after forgets the key. */
  lemma LostSaveStaysLost(m: Memory, k: Key, steps: nat, again: nat)
    requires steps < 3 && !Duplicate(m, k) && AsString(k) !in LoadSeen(m.disk.main)
    ensures var twice := Recorded(Recorded(m, k, steps), k, again);
            Duplicate(twice, k) && !Duplicate(Restarted(twice.disk), k)
  {
    hide AsString;
  }
}
