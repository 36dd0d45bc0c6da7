/**
  The clone push: a verified clone is installed when it is not older and not more than a tenth smaller than anything
  accepted before. The high-water file carries that memory past a lost or damaged current clone.
*/
module ClonePush {
  import opened NineTenths
  import opened Wrappers

  datatype Clone = Clone(rows: RowCount, capturedAt: int, digest: int)

  datatype HighFile = Missing | Corrupt | High(rows: RowCount, newest: int)

  /** `latest` is the clone the store serves; None when there is none or it does not verify. */
  datatype Store = Store(latest: Option<Clone>, high: HighFile)

  datatype Why =
    | BundleRefused | HighWaterUnreadable | BelowFirstPushFloor | OlderThanCurrent | ResultShrunk
    | StoreUnavailable | ReadbackFailed

  /** `Unrecorded`: the clone is installed and served, but the high-water file could not be rewritten. */
  datatype Outcome = Ingested | Unchanged | Refused(why: Why) | Unrecorded

  datatype WriteAnswer = WriteDone | FailedBefore | FailedAfter

  /** What the file system answered during one push. */
  datatype Disk = Disk(previousReadable: bool, write: WriteAnswer, readbackOk: bool, restoreWorks: bool,
    highWorks: bool)

  /** One bundle: whether it and its clone verified, the clone, and the floor for a very first push. */
  datatype Push = Push(valid: bool, clone: Clone, floor: nat)

  function Max(a: int, b: int): int { if a < b then b else a }

  function MaxRows(a: RowCount, b: RowCount): RowCount { if a < b then b else a }

  /** The largest row count and newest capture time on record; None on a store that never had a clone. */
  function Mark(s: Store): Option<(RowCount, int)>
    requires !s.high.Corrupt?
  {
    match (s.high, s.latest)
    case (High(rows, newest), Some(c)) => Some((MaxRows(rows, c.rows), Max(newest, c.capturedAt)))
    case (High(rows, newest), None) => Some((rows, newest))
    case (_, Some(c)) => Some((c.rows, c.capturedAt))
    case (_, None) => None
  }

  predicate SameClone(a: Clone, b: Option<Clone>) {
    b.Some? && a.capturedAt == b.value.capturedAt && a.digest == b.value.digest
  }

  /** What speaks against the clone, None for one that may be installed. */
  function Objection(s: Store, p: Push): Option<Why> {
    if !p.valid then Some(BundleRefused)
    else if s.high.Corrupt? then Some(HighWaterUnreadable)
    else if Mark(s).None? then (if p.clone.rows < p.floor then Some(BelowFirstPushFloor) else None)
    else if p.clone.capturedAt < Mark(s).value.1 then Some(OlderThanCurrent)
    else if s.latest.Some? && p.clone.capturedAt <= s.latest.value.capturedAt then Some(OlderThanCurrent)
    else if Mark(s).value.0 > 0 && 10 * p.clone.rows < 9 * Mark(s).value.0 then Some(ResultShrunk)
    else None
  }

  function Restored(s: Store, live: Option<Clone>, d: Disk): Option<Clone> {
    if !d.restoreWorks then live else if d.previousReadable then s.latest else None
  }

  function Raised(s: Store, c: Clone): HighFile
    requires !s.high.Corrupt?
  {
    if Mark(s).Some? then High(MaxRows(Mark(s).value.0, c.rows), Max(Mark(s).value.1, c.capturedAt))
    else High(c.rows, c.capturedAt)
  }

  /** The store after a push, and what the pusher is told. */
  function Pushed(s: Store, p: Push, d: Disk): (Store, Outcome) {
    if p.valid && SameClone(p.clone, s.latest) then (s, Unchanged)
    else if Objection(s, p).Some? then (s, Refused(Objection(s, p).value))
    else
      match d.write
      case FailedBefore => (s.(latest := Restored(s, s.latest, d)), Refused(StoreUnavailable))
      case FailedAfter => (s.(latest := Restored(s, Some(p.clone), d)), Refused(StoreUnavailable))
      case WriteDone =>
        if !d.readbackOk then (s.(latest := Restored(s, Some(p.clone), d)), Refused(ReadbackFailed))
        else if !d.highWorks then (s.(latest := Some(p.clone)), Unrecorded)
        else (Store(Some(p.clone), Raised(s, p.clone)), Ingested)
  }

  class CloneStore {
    var latest: Option<Clone>
    var high: HighFile

    function View(): Store
      reads this
    {
      Store(latest, high)
    }

    constructor ()
      ensures View() == Store(None, Missing)
    {
      latest, high := None, Missing;
    }

    method Restore(previous: Option<Clone>, d: Disk)
      modifies this`latest
      ensures latest == if !d.restoreWorks then old(latest) else if d.previousReadable then previous else None
    {
      if !d.restoreWorks { return; }
      latest := if d.previousReadable then previous else None;
    }

    method Ingest(p: Push, d: Disk) returns (outcome: Outcome)
      modifies this
      ensures (View(), outcome) == Pushed(old(View()), p, d)
    {
      if !p.valid { return Refused(BundleRefused); }
      if SameClone(p.clone, latest) { return Unchanged; }
      var rows: RowCount, newest: Option<int> := 0, None;
      match high {
        case Corrupt => return Refused(HighWaterUnreadable);
        case High(r, n) => rows, newest := r, Some(n);
        case Missing =>
      }
      if latest.Some? {
        rows := MaxRows(rows, latest.value.rows);
        newest := Some(if newest.Some? then Max(newest.value, latest.value.capturedAt) else latest.value.capturedAt);
      }
      if newest.None? {
        if p.clone.rows < p.floor { return Refused(BelowFirstPushFloor); }
      } else {
        if p.clone.capturedAt < newest.value || (latest.Some? && p.clone.capturedAt <= latest.value.capturedAt) {
          return Refused(OlderThanCurrent);
        }
        if rows > 0 {
          var shrunk := BelowNineTenths(p.clone.rows, rows);
          if shrunk { return Refused(ResultShrunk); }
        }
      }
      var previous := latest;
      if !d.write.WriteDone? {
        if d.write.FailedAfter? { latest := Some(p.clone); }
        Restore(previous, d);
        return Refused(StoreUnavailable);
      }
      latest := Some(p.clone);
      if !d.readbackOk {
        Restore(previous, d);
        return Refused(ReadbackFailed);
      }
      if !d.highWorks { return Unrecorded; }
      high := High(MaxRows(rows, p.clone.rows),
                   if newest.Some? then Max(newest.value, p.clone.capturedAt) else p.clone.capturedAt);
      return Ingested;
    }
  }

  // ----- sequences of pushes ----------------------------------------------------------------------------------------

  /** Besides pushes, the served clone may be lost or damaged, or replaced by another collector. */
  datatype Event = Pushes(push: Push, disk: Disk) | ClonesLost | OtherWriter(clone: Clone)

  /** The accepted pushes, oldest first, are kept beside the store. */
  datatype Run = Run(store: Store, accepted: seq<Clone>)

  function Step(r: Run, e: Event): Run {
    match e
    case ClonesLost => r.(store := r.store.(latest := None))
    case OtherWriter(c) => r.(store := r.store.(latest := Some(c)))
    case Pushes(p, d) =>
      var (next, outcome) := Pushed(r.store, p, d);
      Run(next, if outcome.Ingested? then r.accepted + [p.clone] else r.accepted)
  }

  function After(r: Run, events: seq<Event>): Run {
    if events == [] then r else Step(After(r, events[..|events| - 1]), events[|events| - 1])
  }

  const EMPTY := Run(Store(None, Missing), [])

  /**
    Everything accepted is within the high-water mark, and no later one was a tenth smaller or older than an earlier
    one.
  */
  ghost predicate Marked(r: Run) {
    && !r.store.high.Corrupt?
    && (r.accepted != [] ==> r.store.high.High?)
    && (forall i :: 0 <= i < |r.accepted| ==>
          r.store.high.High? && r.accepted[i].rows <= r.store.high.rows
            && r.accepted[i].capturedAt <= r.store.high.newest)
    && (forall i, j :: 0 <= i < j < |r.accepted| ==>
          10 * r.accepted[j].rows >= 9 * r.accepted[i].rows && r.accepted[i].capturedAt <= r.accepted[j].capturedAt)
  }

  predicate NotLower(a: HighFile, b: HighFile) {
    a.High? ==> b.High? && a.rows <= b.rows && a.newest <= b.newest
  }

  /** The high-water pair never decreases, whatever the push, the disk and the other writers do. */
  lemma HighWaterNeverDecreases(r: Run, e: Event)
    ensures NotLower(r.store.high, Step(r, e).store.high)
    ensures r.store.high.Corrupt? ==> Step(r, e).store.high.Corrupt?
  {
  }

  /** What an accepted clone fits, and the mark it leaves. */
  lemma AcceptedRaisesMark(s: Store, p: Push, d: Disk)
    requires Pushed(s, p, d).1.Ingested?
    ensures var high := Pushed(s, p, d).0.high;
            && high.High? && p.clone.rows <= high.rows && p.clone.capturedAt <= high.newest && NotLower(s.high, high)
    ensures s.high.High? ==> 10 * p.clone.rows >= 9 * s.high.rows && s.high.newest <= p.clone.capturedAt
    ensures !s.high.Corrupt?
  {
  }

  lemma AcceptKeepsMarked(r: Run, next: Store, c: Clone)
    requires Marked(r) && next.high.High? && c.rows <= next.high.rows && c.capturedAt <= next.high.newest
    requires NotLower(r.store.high, next.high)
    requires r.store.high.High? ==> 10 * c.rows >= 9 * r.store.high.rows && r.store.high.newest <= c.capturedAt
    ensures Marked(Run(next, r.accepted + [c]))
  {
  }

  lemma StepKeepsMarked(r: Run, e: Event)
    requires Marked(r)
    ensures Marked(Step(r, e))
  {
    if e.Pushes? && Pushed(r.store, e.push, e.disk).1.Ingested? {
      AcceptedRaisesMark(r.store, e.push, e.disk);
      AcceptKeepsMarked(r, Pushed(r.store, e.push, e.disk).0, e.push.clone);
    } else {
      HighWaterNeverDecreases(r, e);
    }
  }

  lemma {:induction false} RunKeepsMarked(r: Run, events: seq<Event>)
    requires Marked(r)
    ensures Marked(After(r, events)) && NotLower(r.store.high, After(r, events).store.high)
  {
    if events != [] {
      var before, e := After(r, events[..|events| - 1]), events[|events| - 1];
      RunKeepsMarked(r, events[..|events| - 1]);
      StepKeepsMarked(before, e);
      HighWaterNeverDecreases(before, e);
    }
  }

  /**
    Over any sequence of pushes, with the served clone lost or replaced at any time: every accepted clone has at least
    nine tenths of every clone accepted before it, so shrinking never compounds, and none is older than an accepted one.
  */
  lemma ShrinkNeverCompounds(events: seq<Event>, i: nat, j: nat)
    requires i < j < |After(EMPTY, events).accepted|
    ensures var a := After(EMPTY, events).accepted;
            10 * a[j].rows >= 9 * a[i].rows && a[i].capturedAt <= a[j].capturedAt
  {
    RunKeepsMarked(EMPTY, events);
  }

  /** Event `i` is a push that was installed and recorded. */
  predicate Ingests(events: seq<Event>, i: nat) {
    i < |events| && events[i].Pushes?
    && Pushed(After(EMPTY, events[..i]).store, events[i].push, events[i].disk).1.Ingested?
  }

  lemma {:induction false} IngestedIsWithin(events: seq<Event>, i: nat)
    requires Ingests(events, i)
    ensures var high := After(EMPTY, events).store.high;
            high.High? && events[i].push.clone.rows <= high.rows && events[i].push.clone.capturedAt <= high.newest
    decreases |events|
  {
    var before, last := events[..|events| - 1], events[|events| - 1];
    if i < |before| {
      assert before[..i] == events[..i];
      IngestedIsWithin(before, i);
      HighWaterNeverDecreases(After(EMPTY, before), last);
    } else {
      AcceptedRaisesMark(After(EMPTY, before).store, last.push, last.disk);
    }
  }

  /** The same in terms of the events alone: of two recorded pushes the later one has nine tenths of the earlier. */
  lemma LaterPushFollows(events: seq<Event>, i: nat, j: nat)
    requires i < j && Ingests(events, i) && Ingests(events, j)
    ensures var a, b := events[i].push.clone, events[j].push.clone;
            10 * b.rows >= 9 * a.rows && a.capturedAt <= b.capturedAt
  {
    var before := events[..j];
    assert before[..i] == events[..i];
    IngestedIsWithin(before, i);
    AcceptedRaisesMark(After(EMPTY, before).store, events[j].push, events[j].disk);
  }

  /** The clones on record are those of the recorded pushes, in order. */
  lemma AcceptedExactly(events: seq<Event>, e: Event)
    ensures After(EMPTY, events + [e]).accepted
         == After(EMPTY, events).accepted + if Ingests(events + [e], |events|) then [e.push.clone] else []
  {
    assert (events + [e])[..|events|] == events;
  }

  /** What each event leaves to serve: nothing after a loss, another writer's clone, or what the push left. */
  lemma ServedExactly(events: seq<Event>, e: Event)
    ensures var s, t := After(EMPTY, events).store, After(EMPTY, events + [e]).store;
            && (e.ClonesLost? ==> t.latest.None? && t.high == s.high)
            && (e.OtherWriter? ==> t.latest == Some(e.clone) && t.high == s.high)
            && (e.Pushes? ==> t == Pushed(s, e.push, e.disk).0)
  {
    assert (events + [e])[..|events|] == events;
  }

  /**
    The next push is installed and recorded exactly when it fits everything accepted so far and what is served, and
    the disk works.
  */
  lemma AcceptedExactlyWhenFitting(r: Run, p: Push, d: Disk)
    requires !r.store.high.Corrupt?
    ensures Pushed(r.store, p, d).1.Ingested? <==>
      && p.valid && !SameClone(p.clone, r.store.latest)
      && (r.store.high.Missing? && r.store.latest.None? ==> p.floor <= p.clone.rows)
      && (r.store.high.High? ==>
        r.store.high.newest <= p.clone.capturedAt && 9 * r.store.high.rows <= 10 * p.clone.rows)
      && (r.store.latest.Some? ==>
            r.store.latest.value.capturedAt < p.clone.capturedAt && 9 * r.store.latest.value.rows <= 10 * p.clone.rows)
      && d.write.WriteDone? && d.readbackOk && d.highWorks
  {
  }

  /** The mark an accepted push leaves: in each part the largest of the old mark, the served clone and the new clone. */
  lemma AcceptedMarkExactly(s: Store, p: Push, d: Disk)
    requires Pushed(s, p, d).1.Ingested?
    ensures Pushed(s, p, d).0.latest == Some(p.clone) && Pushed(s, p, d).0.high.High?
    ensures var high := Pushed(s, p, d).0.high;
            && p.clone.rows <= high.rows && (s.high.High? ==> s.high.rows <= high.rows)
            && (s.latest.Some? ==> s.latest.value.rows <= high.rows)
            && (high.rows == p.clone.rows || (s.high.High? && high.rows == s.high.rows)
                || (s.latest.Some? && high.rows == s.latest.value.rows))
    ensures var high := Pushed(s, p, d).0.high;
            && p.clone.capturedAt <= high.newest && (s.high.High? ==> s.high.newest <= high.newest)
            && (s.latest.Some? ==> s.latest.value.capturedAt <= high.newest)
            && (high.newest == p.clone.capturedAt || (s.high.High? && high.newest == s.high.newest)
                || (s.latest.Some? && high.newest == s.latest.value.capturedAt))
  {
  }

  /** Every clone that was served at some time. */
  function Seen(events: seq<Event>): set<Clone> {
    if events == [] then {} else
    var latest := After(EMPTY, events).store.latest;
    Seen(events[..|events| - 1]) + if latest.Some? then {latest.value} else {}
  }

  ghost predicate Attained(high: HighFile, seen: set<Clone>) {
    high.High? ==>
      (exists c :: c in seen && c.rows == high.rows) && exists c :: c in seen && c.capturedAt == high.newest
  }

  lemma MarkStaysAttained(high: HighFile, seen: set<Clone>, more: set<Clone>)
    requires Attained(high, seen)
    ensures Attained(high, seen + more)
  {
    if high.High? {
      var c :| c in seen && c.rows == high.rows;
      var d :| d in seen && d.capturedAt == high.newest;
      assert c in seen + more && d in seen + more;
    }
  }

  lemma PushAttains(s: Store, p: Push, d: Disk, seen: set<Clone>)
    requires Pushed(s, p, d).1.Ingested? && Attained(s.high, seen) && (s.latest.Some? ==> s.latest.value in seen)
    ensures Attained(Pushed(s, p, d).0.high, seen + {p.clone})
  {
    AcceptedMarkExactly(s, p, d);
    MarkStaysAttained(s.high, seen, {p.clone});
    assert p.clone in seen + {p.clone};
    if s.latest.Some? { assert s.latest.value in seen + {p.clone}; }
  }

  /** Over every run from an empty store each part of the mark is that of a clone served at some time. */
  lemma {:induction false} MarkIsAttained(events: seq<Event>)
    ensures Attained(After(EMPTY, events).store.high, Seen(events)) && !After(EMPTY, events).store.high.Corrupt?
    ensures After(EMPTY, events).store.latest.Some? ==> After(EMPTY, events).store.latest.value in Seen(events)
  {
    if events != [] {
      var before, e := events[..|events| - 1], events[|events| - 1];
      var r := After(EMPTY, before);
      MarkIsAttained(before);
      RunKeepsMarked(EMPTY, events);
      var latest := Step(r, e).store.latest;
      MarkStaysAttained(r.store.high, Seen(before), if latest.Some? then {latest.value} else {});
      if e.Pushes? && Pushed(r.store, e.push, e.disk).1.Ingested? {
        PushAttains(r.store, e.push, e.disk, Seen(before));
        assert latest == Some(e.push.clone);
      }
    }
  }

  /**
    So no push is refused for what no clone ever was: a verified one that is newer than every clone ever served, and has
    nine tenths of the rows of each, is installed and recorded when the disk works.
  */
  lemma NewerPushIsInstalled(events: seq<Event>, p: Push, d: Disk)
    requires p.valid && d.write.WriteDone? && d.readbackOk && d.highWorks
    requires forall c :: c in Seen(events) ==> c.capturedAt < p.clone.capturedAt && 9 * c.rows <= 10 * p.clone.rows
    requires After(EMPTY, events).store == Store(None, Missing) ==> p.floor <= p.clone.rows
    ensures Pushed(After(EMPTY, events).store, p, d).1.Ingested?
  {
    var r := After(EMPTY, events);
    MarkIsAttained(events);
    AcceptedExactlyWhenFitting(r, p, d);
  }

  // ----- what a refusal leaves --------------------------------------------------------------------------------------

  /**
    A refusal leaves the served clone as it was, except exactly when the restore after a failed install does not bring
    it back; and exactly when that restore itself fails the refused clone stays served.
  */
  lemma RefusalLeavesStore(s: Store, p: Push, d: Disk)
    requires Pushed(s, p, d).1.Refused?
    ensures Pushed(s, p, d).0.high == s.high
    ensures Objection(s, p).Some? ==> Pushed(s, p, d).0 == s
    ensures Pushed(s, p, d).0.latest != s.latest <==>
      Objection(s, p).None?
      && (if d.restoreWorks then s.latest.Some? && !d.previousReadable
          else !d.write.FailedBefore?)
    ensures s.latest != Some(p.clone) ==>
      (Pushed(s, p, d).0.latest == Some(p.clone) <==>
        Objection(s, p).None? && !d.restoreWorks && !d.write.FailedBefore?)
  {
  }

  /**
    The same push again, now with a working disk. It is installed exactly when the refusal left the served clone as it
    was, or lost it on a store whose floor or mark the push meets; where the failed restore left the refused clone
    served, the retry is told "unchanged" and the clone never gets its record.
  */
  lemma RetryAfterRefusal(s: Store, p: Push, d: Disk, again: Disk)
    requires Pushed(s, p, d).1.Refused? && Objection(s, p).None?
    requires again.write.WriteDone? && again.readbackOk && again.highWorks
    ensures var left := Pushed(s, p, d).0;
            var stays := !d.restoreWorks && !d.write.FailedBefore?;
            var lost := d.restoreWorks && !d.previousReadable && s.latest.Some?;
            && (!stays && !lost ==> left == s)
            && (Pushed(left, p, again).1.Unchanged? <==> stays)
            && (Pushed(left, p, again).1.Ingested? <==> !stays && (lost && s.high.Missing? ==> p.floor <= p.clone.rows))
            && (stays ==> Pushed(left, p, again).0.high == s.high)
  {
  }

  // ----- what the store remembers -----------------------------------------------------------------------------------

  /** `c` was installed earlier, and `next` may follow it. */
  predicate Follows(next: Clone, c: Clone) {
    10 * next.rows >= 9 * c.rows && next.capturedAt >= c.capturedAt
  }

  predicate Installs(s: Store, p: Push, d: Disk) {
    Pushed(s, p, d).1.Ingested? || Pushed(s, p, d).1.Unrecorded?
  }

  /** The fewest rows that are nine tenths of `rows`. */
  function Needed(rows: RowCount): RowCount { (9 * rows + 9) / 10 }

  /** The earliest capture time the store would install. */
  function Earliest(s: Store): int
    requires !s.high.Corrupt? && Mark(s).Some?
  {
    if s.latest.Some? then Max(Mark(s).value.1, s.latest.value.capturedAt + 1) else Mark(s).value.1
  }

  /** The mark asks for as many rows as `c` does and for nothing older. */
  predicate Remembers(s: Store, c: Clone) {
    s.high.Corrupt?
    || (Mark(s).Some? && Needed(Mark(s).value.0) >= Needed(c.rows) && Earliest(s) >= c.capturedAt)
  }

  /** The smallest and oldest clone the store installs. */
  function Smallest(s: Store): Push
    requires !s.high.Corrupt?
  {
    if Mark(s).None? then Push(true, Clone(0, 0, 0), 0)
    else Push(true, Clone(Needed(Mark(s).value.0), Earliest(s), 0), 0)
  }

  const GOOD_DISK := Disk(true, WriteDone, true, true, true)

  lemma SmallestIsInstalled(s: Store, time: int)
    requires !s.high.Corrupt?
    ensures Installs(s, Smallest(s), GOOD_DISK)
    ensures Mark(s).None? ==> Installs(s, Push(true, Clone(0, time, 0), 0), GOOD_DISK)
  {
  }

  lemma RememberedFollow(s: Store, c: Clone, p: Push, d: Disk)
    requires Remembers(s, c) && Installs(s, p, d)
    ensures Follows(p.clone, c)
  {
  }

  /**
    Everything the store would still install follows an installed clone exactly when the store remembers that clone.
  */
  lemma RememberedExactly(s: Store, c: Clone)
    ensures Remembers(s, c) <==> forall p: Push, d: Disk :: Installs(s, p, d) ==> Follows(p.clone, c)
  {
    if Remembers(s, c) {
      forall p: Push, d: Disk | Installs(s, p, d) ensures Follows(p.clone, c) { RememberedFollow(s, c, p, d); }
    } else {
      SmallestIsInstalled(s, c.capturedAt - 1);
      assert !Follows(Clone(0, c.capturedAt - 1, 0), c);
    }
  }

  /** Every clone with its record is remembered for ever. */
  lemma RecordedIsRemembered(events: seq<Event>, i: nat)
    requires i < |After(EMPTY, events).accepted|
    ensures Remembers(After(EMPTY, events).store, After(EMPTY, events).accepted[i])
  {
    RunKeepsMarked(EMPTY, events);
  }

  /**
    A clone without its record is remembered while it is served; once it is lost, exactly when the older mark covers
    it.
  */
  lemma UnrecordedRemembered(s: Store, p: Push, d: Disk)
    requires Pushed(s, p, d).1.Unrecorded?
    ensures Remembers(Pushed(s, p, d).0, p.clone)
    ensures Remembers(Pushed(s, p, d).0.(latest := None), p.clone) <==>
      s.high.High? && Needed(s.high.rows) >= Needed(p.clone.rows) && s.high.newest >= p.clone.capturedAt
  {
  }

  /**
    Without the record of an installed clone the memory is the served clone alone: lose it, and a small clone passes.
  */
  lemma UnrecordedForgets()
    ensures var big, small := Push(true, Clone(5000, 1, 1), 1000), Push(true, Clone(1000, 2, 2), 1000);
            var s := Pushed(Store(None, Missing), big, Disk(true, WriteDone, true, true, false));
            s.1.Unrecorded? && Pushed(s.0.(latest := None), small, Disk(true, WriteDone, true, true, true)).1.Ingested?
  {
  }
}
