/**
  The Account UUID write to Salesforce, one call or review after the other: the log alone keeps a second write away,
  until the owner reviews the first. Calls that overlap are the subject of `OverlappingWrites`.
*/
module UuidWrites {
  import opened Wrappers
  import opened WriteLog
  import O = OverlappingWrites
  import SequentialWrites

  /**
    One call, the owner's or the automatic one: the checks besides the log, twice, whether the log could be read each
    time.
  */
  datatype Call = Call(co: string, firstOk: bool, firstReadable: bool, againOk: bool, againReadable: bool,
    attempt: Attempt)

  datatype Event =
    | Write(call: Call)
    | Clear(co: string, readable: bool, how: Append)

  predicate Passes(log: seq<Line>, c: Call) {
    c.firstOk && Last(log, c.co, Uuid, c.firstReadable).None? && c.againOk
      && Last(log, c.co, Uuid, c.againReadable).None?
  }

  function Step(s: State, e: Event): State {
    match e
    case Write(c) => if Passes(s.log, c) then Guarded(s, c.co, Uuid, false, c.attempt) else s
    case Clear(co, readable, how) =>
      if O.MayClear(s.log, co, readable) then s.(log := Appended(s.log, Entry(co, Uuid, Cleared), how)) else s
  }

  method WriteUuid(ledger: Ledger, c: Call) returns (told: Option<Told>)
    modifies ledger
    ensures ledger.View() == Step(old(ledger.View()), Write(c))
    ensures told == if Passes(old(ledger.log), c) then Some(ToldBy(c.attempt)) else None
  {
    if !c.firstOk || Last(ledger.log, c.co, Uuid, c.firstReadable).Some? { return None; }
    if !c.againOk || Last(ledger.log, c.co, Uuid, c.againReadable).Some? { return None; }
    var answer := ledger.WriteOnce(c.co, Uuid, false, c.attempt);
    return Some(answer);
  }

  /** The owner's review: recorded only over an uncertain or a started write. */
  method ClearUuid(ledger: Ledger, co: string, readable: bool, how: Append) returns (recorded: bool)
    modifies ledger
    ensures ledger.View() == Step(old(ledger.View()), Clear(co, readable, how))
    ensures recorded <==> O.MayClear(old(ledger.log), co, readable) && how.Written?
  {
    var state := Last(ledger.log, co, Uuid, readable);
    if state != Some(Uncertain) && state != Some(Started) { return false; }
    recorded := ledger.Record(Entry(co, Uuid, Cleared), how);
  }

  function Run(s: State, events: seq<Event>): State {
    if events == [] then s else Step(Run(s, events[..|events| - 1]), events[|events| - 1])
  }

  const NOTHING := State([], [])

  // ----- a sequence of calls as a schedule --------------------------------------------------------------------------

  /** The event as the steps of one process, with nothing in between. */
  function StepsOf(e: Event): seq<O.Event> {
    match e
    case Write(c) =>
      SequentialWrites.LookAndWrite(0, c.co, Uuid, c.firstOk && c.againOk, c.firstReadable
        && c.againReadable, c.attempt)
    case Clear(co, readable, how) => [O.LooksToClear(0, co, readable)] + [O.Clears(0, how)]
  }

  function Schedule(events: seq<Event>): seq<O.Event> {
    if events == [] then [] else Schedule(events[..|events| - 1]) + StepsOf(events[|events| - 1])
  }

  /** The same log and sends, the process at rest, and every send of an Account UUID. */
  ghost predicate Matches(s: State, t: O.Shared) {
    t.log == s.log && t.sends == s.sends && O.PhaseOf(t, 0).Idle? && SequentialWrites.Orderly(t)
    && forall i :: 0 <= i < |s.sends| ==> s.sends[i].step.Uuid?
  }

  lemma ClearMatches(s: State, t: O.Shared, co: string, readable: bool, how: Append)
    requires Matches(s, t)
    ensures Matches(Step(s, Clear(co, readable, how)), O.Run(t, StepsOf(Clear(co, readable, how))))
  {
    O.RunTwo(t, O.LooksToClear(0, co, readable), O.Clears(0, how));
    var u := O.Step(t, O.LooksToClear(0, co, readable));
    if O.MayClear(s.log, co, readable) {
      var origin := O.Origin(|t.log|, readable, false, None);
      SequentialWrites.PutStaysOrderly(u, 0, Entry(co, Uuid, Cleared), origin, how, O.Idle);
    }
  }

  lemma StepMatches(s: State, t: O.Shared, e: Event)
    requires Matches(s, t)
    ensures Matches(Step(s, e), O.Run(t, StepsOf(e)))
  {
    match e
    case Write(c) =>
      var readable := c.firstReadable && c.againReadable;
      var u := SequentialWrites.LookAndWriteAlone(t, 0, c.co, Uuid, c.firstOk && c.againOk, readable, c.attempt);
    case Clear(co, readable, how) => ClearMatches(s, t, co, readable, how);
  }

  lemma {:induction false} ScheduleMatches(events: seq<Event>)
    ensures Matches(Run(NOTHING, events), O.Run(O.NOTHING, Schedule(events)))
  {
    if events != [] {
      var before, e := events[..|events| - 1], events[|events| - 1];
      ScheduleMatches(before);
      O.RunBoth(O.NOTHING, Schedule(before), StepsOf(e));
      StepMatches(Run(NOTHING, before), O.Run(O.NOTHING, Schedule(before)), e);
    }
  }

  /** Between the two log positions the owner's review of this CO stands. */
  predicate ReviewBetween(log: seq<Line>, co: string, from: nat, to: nat) {
    exists k :: from <= k < to && k < |log| && log[k] == Entry(co, Uuid, Cleared)
  }

  lemma SeenIsBetween(log: seq<Line>, co: string, from: nat, to: nat)
    requires 0 < to && O.ReviewSeen(log, co, from - 1, to - 1)
    ensures ReviewBetween(log, co, from, to)
  {
    var k :| 0 <= k < |log| && from - 1 < k < to - 1 && log[k] == Entry(co, Uuid, Cleared);
  }

  /**
    Over any sequence of owner-confirmed and automatic writes and reviews, with the process stopping anywhere, appends
    failing in any way and reads failing at any time: between two writes sent for one CO stands the owner's review.
  */
  lemma WritesAreSeparatedByReview(events: seq<Event>, p: nat, q: nat)
    requires var s := Run(NOTHING, events);
             p < q < |s.sends| && s.sends[p].co == s.sends[q].co
    ensures var s := Run(NOTHING, events);
            ReviewBetween(s.log, s.sends[p].co, s.sends[p].at, s.sends[q].at)
  {
    var t := O.Run(O.NOTHING, Schedule(events));
    ScheduleMatches(events);
    SequentialWrites.OrderlyLook(t, p, q);
    O.ReviewedExactlyUnlessOverlapping(Schedule(events), t.sends[p].co, p, q);
    SeenIsBetween(t.log, t.sends[p].co, t.sends[p].at, t.sends[q].at);
  }

  // ----- a final result ---------------------------------------------------------------------------------------------

  const CLEAN := Attempt(Written, Never, Accepted(true), Written)

  /** And one blind review is enough for a second write after a verified one, for any CO. */
  lemma BlindClearWritesTwice(co: string)
    ensures var write := Write(Call(co, true, true, true, true, CLEAN));
            var s := Run(NOTHING, [write, Clear(co, false, Written), write]);
            && |s.sends| == 2 && |s.log| > 1 && s.sends[0].co == co && s.sends[1].co == co
            && s.log[1] == Entry(co, Uuid, Verified) && s.sends[1].at > 2
  {
    var write := Write(Call(co, true, true, true, true, CLEAN));
    var clear := Clear(co, false, Written);
    var s1 := Step(NOTHING, write);
    assert s1.log == [Entry(co, Uuid, Started), Entry(co, Uuid, Verified)];
    var s2 := Step(s1, clear);
    assert s2.log == [Entry(co, Uuid, Started), Entry(co, Uuid, Verified), Entry(co, Uuid, Cleared)];
    assert [write, clear, write][..2] == [write, clear] && [write, clear][..1] == [write] && [write][..0] == [];
    assert Run(NOTHING, [write]) == s1;
    assert Run(NOTHING, [write, clear]) == s2;
  }
}
