/**
  The guarded Salesforce writes with the steps of their calls taken apart: the last look at the log, the intent line,
  the send, the result line; and the owner's clear tool, which looks and then records its review. Any number of
  processes interleave over one log, stop anywhere, and see appends and reads fail in any way. No lock keeps them
  apart.
*/
module OverlappingWrites {
  import opened Wrappers
  import opened WriteLog

  /**
    How a line came about: how many lines its author's last look saw, whether that look could read the log, and for a
    result line what Salesforce and the read-back had answered.
  */
  datatype Origin = Origin(look: nat, readable: bool, shown: bool, reply: Option<Reply>)

  /**
    Where a process stands. `Settled` has seen the ids in the row or has verified its own write of them, and may go on
    to the stage; `Reviewing` is the clear tool after its look.
  */
  datatype Phase =
    | Idle
    | Settled(co: string, shown: bool)
    | Looked(co: string, step: WriteStep, origin: Origin)
    | Intending(co: string, step: WriteStep, origin: Origin, at: nat)
    | Awaiting(co: string, step: WriteStep, origin: Origin, at: nat)
    | Reviewing(co: string, origin: Origin)

  /** `origins` keeps beside each line of the log how it came about. */
  datatype Shared = Shared(log: seq<Line>, origins: seq<Origin>, sends: seq<Send>, phases: map<nat, Phase>)

  datatype Event =
    | Shows(process: nat, co: string)
    | Looks(process: nat, co: string, step: WriteStep, ok: bool, readable: bool)
    | Intends(process: nat, how: Append)
    | Sends(process: nat)
    | Concludes(process: nat, reply: Reply, how: Append)
    | LooksToClear(process: nat, co: string, readable: bool)
    | Clears(process: nat, how: Append)
    | Stops(process: nat)

  /** No write of this step is on record; for the stage a verified one may be. */
  predicate GateOpen(log: seq<Line>, co: string, step: WriteStep, readable: bool) {
    Last(log, co, step, readable).None? || (step.Stage? && Last(log, co, step, readable) == Some(Verified))
  }

  /** What the clear tool accepts: an uncertain or a started write. */
  predicate MayClear(log: seq<Line>, co: string, readable: bool) {
    Last(log, co, Uuid, readable) == Some(Uncertain) || Last(log, co, Uuid, readable) == Some(Started)
  }

  /**
    The gate opens exactly on a log that could be read whole and has no line of this CO and step, or as the last one a
    review or, for the stage, a verified write.
  */
  lemma GateOpensExactly(log: seq<Line>, co: string, step: WriteStep, readable: bool)
    ensures GateOpen(log, co, step, readable) <==>
      readable && Torn !in log
      && ((forall k :: 0 <= k < |log| ==> !IsOf(log[k], co, step))
          || exists k: nat :: LastOf(log, co, step, k)
               && (log[k].result.Cleared? || (step.Stage? && log[k].result.Verified?)))
  {
    NewestExactly(log, co, step);
    forall j: nat, k: nat | LastOf(log, co, step, j) && LastOf(log, co, step, k) ensures j == k {
      OneLast(log, co, step, j, k);
    }
  }

  /** The clear tool records a review exactly over a log it cannot read, or after an open Account UUID write. */
  lemma MayClearExactly(log: seq<Line>, co: string, readable: bool)
    ensures MayClear(log, co, readable) <==>
      !readable || Torn in log
      || exists k: nat :: LastOf(log, co, Uuid, k) && (log[k].result.Started? || log[k].result.Uncertain?)
  {
    NewestExactly(log, co, Uuid);
    forall j: nat, k: nat | LastOf(log, co, Uuid, j) && LastOf(log, co, Uuid, k) ensures j == k {
      OneLast(log, co, Uuid, j, k);
    }
  }

  function PhaseOf(s: Shared, p: nat): Phase {
    if p in s.phases then s.phases[p] else Idle
  }

  function Enter(s: Shared, p: nat, phase: Phase): Shared {
    s.(phases := s.phases[p := phase])
  }

  function Noted(origins: seq<Origin>, origin: Origin, how: Append): seq<Origin> {
    if how.FailedLost? then origins else origins + [origin]
  }

  /** The process appends a line and goes on in `phase`. */
  function Put(s: Shared, p: nat, line: Line, origin: Origin, how: Append, phase: Phase): Shared {
    Shared(Appended(s.log, line, how), Noted(s.origins, origin, how), s.sends, s.phases[p := phase])
  }

  predicate MayLook(phase: Phase, co: string, step: WriteStep) {
    if step.Stage? then phase.Settled? && phase.co == co else phase.Idle?
  }

  function LookOf(s: Shared, phase: Phase, step: WriteStep, readable: bool): Origin {
    Origin(|s.log|, readable, step.Stage? && phase.Settled? && phase.shown, None)
  }

  function AfterResult(co: string, step: WriteStep, result: LineResult, how: Append): Phase {
    if step.Ids? && result.Verified? && how.Written? then Settled(co, false) else Idle
  }

  /** One event; one that the process is not in a position for changes nothing. */
  function Step(s: Shared, e: Event): Shared {
    var phase := PhaseOf(s, e.process);
    match e
    case Shows(p, co) => if phase.Idle? then Enter(s, p, Settled(co, true)) else s
    case Looks(p, co, step, ok, readable) =>
      if !MayLook(phase, co, step) then s
      else if ok && GateOpen(s.log, co, step, readable)
        then Enter(s, p, Looked(co, step, LookOf(s, phase, step, readable)))
      else Enter(s, p, Idle)
    case Intends(p, how) =>
      if !phase.Looked? then s
      else Put(s, p, Entry(phase.co, phase.step, Started), phase.origin, how,
               if how.Written? then Intending(phase.co, phase.step, phase.origin, |s.log| + 1) else Idle)
    case Sends(p) =>
      if !phase.Intending? then s
      else Enter(s, p, Awaiting(phase.co, phase.step, phase.origin, phase.at))
           .(sends := s.sends + [Send(phase.co, phase.step, phase.at, phase.origin.shown)])
    case Concludes(p, reply, how) =>
      if !phase.Awaiting? then s
      else Put(s, p, Entry(phase.co, phase.step, ResultOf(reply)), phase.origin.(reply := Some(reply)), how,
               AfterResult(phase.co, phase.step, ResultOf(reply), how))
    case LooksToClear(p, co, readable) =>
      if phase.Idle?
        && MayClear(s.log, co, readable) then Enter(s, p, Reviewing(co, Origin(|s.log|, readable, false, None)))
      else s
    case Clears(p, how) =>
      if !phase.Reviewing? then s else Put(s, p, Entry(phase.co, Uuid, Cleared), phase.origin, how, Idle)
    case Stops(p) => Enter(s, p, Idle)
  }

  function Run(s: Shared, events: seq<Event>): Shared {
    if events == [] then s else Step(Run(s, events[..|events| - 1]), events[|events| - 1])
  }

  const NOTHING := Shared([], [], [], map[])

  // ----- how the lines of a log came about --------------------------------------------------------------------------

  ghost predicate IdsVerified(log: seq<Line>, co: string) {
    exists k :: 0 <= k < |log| && log[k] == Entry(co, Ids, Verified)
  }

  ghost predicate HasIntent(log: seq<Line>, origins: seq<Origin>, co: string, step: WriteStep, origin: Origin) {
    exists m :: 0 <= m < |log| && m < |origins| && log[m] == Entry(co, step, Started)
      && origins[m] == origin.(reply := None)
  }

  /**
    A verified line is earned by an accepted write that was read back, a rejected one by a refusal, an uncertain one by
    the rest.
  */
  predicate Earned(result: LineResult, reply: Option<Reply>) {
    match reply
    case None => false
    case Some(Accepted(verified)) => result == if verified then Verified else Uncertain
    case Some(Refused) => result == Rejected
    case Some(NoReply) => result == Uncertain
  }

  /**
    A line that may come next: an intent whose look found the gate open, a result of one, or a review of what it saw.
  */
  ghost predicate LineFits(log: seq<Line>, origins: seq<Origin>, line: Line, o: Origin) {
    o.look <= |log| &&
    match line
    case Torn => true
    case Entry(co, step, Started) =>
      GateOpen(log[..o.look], co, step, o.readable)
      && (step.Stage? ==> o.shown || IdsVerified(log[..o.look], co))
    case Entry(co, step, Cleared) => step.Uuid? && MayClear(log[..o.look], co, o.readable)
    case Entry(co, step, result) => HasIntent(log, origins, co, step, o) && Earned(result, o.reply)
  }

  ghost predicate Authored(log: seq<Line>, origins: seq<Origin>) {
    |origins| == |log| && forall k :: 0 <= k < |log| ==> LineFits(log[..k], origins[..k], log[k], origins[k])
  }

  ghost predicate IsIntent(log: seq<Line>, origins: seq<Origin>, co: string, step: WriteStep, origin: Origin, at: nat) {
    0 < at <= |log| && at <= |origins| && log[at - 1] == Entry(co, step, Started) && origins[at - 1] == origin
  }

  ghost predicate PhaseFits(log: seq<Line>, origins: seq<Origin>, phase: Phase) {
    match phase
    case Idle => true
    case Settled(co, shown) => shown || IdsVerified(log, co)
    case Looked(co, step, o) => LineFits(log, origins, Entry(co, step, Started), o) && o.reply.None?
    case Intending(co, step, o, at) => IsIntent(log, origins, co, step, o, at) && o.reply.None?
    case Awaiting(co, step, o, at) => IsIntent(log, origins, co, step, o, at) && o.reply.None?
    case Reviewing(co, o) => LineFits(log, origins, Entry(co, Uuid, Cleared), o)
  }

  ghost predicate SendFits(log: seq<Line>, origins: seq<Origin>, send: Send) {
    exists o :: IsIntent(log, origins, send.co, send.step, o, send.at) && o.shown == send.shown
  }

  ghost predicate SendsFit(log: seq<Line>, origins: seq<Origin>, sends: seq<Send>) {
    forall i :: 0 <= i < |sends| ==> SendFits(log, origins, sends[i])
  }

  /** Every send, and every process about to send, has an intent line of its own. */
  ghost predicate OwnIntents(s: Shared) {
    && (forall i, j :: 0 <= i < j < |s.sends| ==> s.sends[i].at != s.sends[j].at)
    && (forall p: nat, i :: PhaseOf(s, p).Intending? && 0 <= i < |s.sends| ==> PhaseOf(s, p).at != s.sends[i].at)
    && (forall p: nat, q: nat ::
          p != q && PhaseOf(s, p).Intending? && PhaseOf(s, q).Intending? ==> PhaseOf(s, p).at != PhaseOf(s, q).at)
  }

  ghost predicate Invariant(s: Shared) {
    && Authored(s.log, s.origins) && OwnIntents(s)
    && (forall p: nat :: PhaseFits(s.log, s.origins, PhaseOf(s, p)))
    && SendsFit(s.log, s.origins, s.sends)
  }

  lemma LineStillFits(log: seq<Line>, origins: seq<Origin>, more: Line, o: Origin, line: Line, p: Origin)
    requires |origins| == |log| && LineFits(log, origins, line, p)
    ensures LineFits(log + [more], origins + [o], line, p)
  {
    assert (log + [more])[..p.look] == log[..p.look];
    if line.Entry? && HasIntent(log, origins, line.co, line.step, p) {
      var m :| 0 <= m < |log| && log[m] == Entry(line.co, line.step, Started) && origins[m] == p.(reply := None);
      assert (log + [more])[m] == log[m] && (origins + [o])[m] == origins[m];
    }
  }

  lemma PhaseStillFits(log: seq<Line>, origins: seq<Origin>, more: Line, o: Origin, phase: Phase)
    requires |origins| == |log| && PhaseFits(log, origins, phase)
    ensures PhaseFits(log + [more], origins + [o], phase)
  {
    match phase
    case Idle =>
    case Settled(co, shown) =>
      if !shown {
        var k :| 0 <= k < |log| && log[k] == Entry(co, Ids, Verified);
        assert (log + [more])[k] == log[k];
      }
    case Looked(co, step, p) => LineStillFits(log, origins, more, o, Entry(co, step, Started), p);
    case Intending(_, _, _, _) =>
    case Awaiting(_, _, _, _) =>
    case Reviewing(co, p) => LineStillFits(log, origins, more, o, Entry(co, Uuid, Cleared), p);
  }

  lemma SendStillFits(log: seq<Line>, origins: seq<Origin>, more: Line, o: Origin, send: Send)
    requires |origins| == |log| && SendFits(log, origins, send)
    ensures SendFits(log + [more], origins + [o], send)
  {
    var p :| IsIntent(log, origins, send.co, send.step, p, send.at) && p.shown == send.shown;
    assert IsIntent(log + [more], origins + [o], send.co, send.step, p, send.at);
  }

  lemma AuthoredGrows(log: seq<Line>, origins: seq<Origin>, line: Line, o: Origin)
    requires Authored(log, origins) && LineFits(log, origins, line, o)
    ensures Authored(log + [line], origins + [o])
  {
    forall k | 0 <= k < |log + [line]|
      ensures LineFits((log + [line])[..k], (origins + [o])[..k], (log + [line])[k], (origins + [o])[k])
    {
      if k < |log| {
        assert (log + [line])[..k] == log[..k] && (origins + [o])[..k] == origins[..k];
      } else {
        assert (log + [line])[..k] == log && (origins + [o])[..k] == origins;
      }
    }
  }

  /** One more line that fits, whoever appends it. */
  lemma LineKeepsFits(s: Shared, line: Line, o: Origin)
    requires Invariant(s) && LineFits(s.log, s.origins, line, o)
    ensures Invariant(s.(log := s.log + [line], origins := s.origins + [o]))
  {
    var t := s.(log := s.log + [line], origins := s.origins + [o]);
    AuthoredGrows(s.log, s.origins, line, o);
    forall p: nat ensures PhaseFits(t.log, t.origins, PhaseOf(t, p)) {
      assert PhaseOf(t, p) == PhaseOf(s, p);
      PhaseStillFits(s.log, s.origins, line, o, PhaseOf(s, p));
    }
    forall i | 0 <= i < |s.sends| ensures SendFits(t.log, t.origins, t.sends[i]) {
      SendStillFits(s.log, s.origins, line, o, s.sends[i]);
    }
    assert forall p: nat :: PhaseOf(t, p) == PhaseOf(s, p);
  }

  /** A phase that fits, with no intent line of another process. */
  lemma EnterKeepsFits(s: Shared, p: nat, phase: Phase)
    requires Invariant(s) && PhaseFits(s.log, s.origins, phase)
    requires phase.Intending? ==>
      (forall i :: 0 <= i < |s.sends| ==> s.sends[i].at != phase.at)
      && forall q: nat :: q != p && PhaseOf(s, q).Intending? ==> PhaseOf(s, q).at != phase.at
    ensures Invariant(Enter(s, p, phase))
  {
    var t := Enter(s, p, phase);
    assert forall q: nat :: PhaseOf(t, q) == if q == p then phase else PhaseOf(s, q);
  }

  lemma FittingLook(log: seq<Line>, origins: seq<Origin>, co: string, step: WriteStep, o: Origin, at: nat)
    requires Authored(log, origins) && IsIntent(log, origins, co, step, o, at)
    ensures o.look < at && GateOpen(log[..o.look], co, step, o.readable)
    ensures step.Stage? ==> o.shown || IdsVerified(log[..o.look], co)
  {
    assert LineFits(log[..at - 1], origins[..at - 1], log[at - 1], origins[at - 1]);
    assert log[..at - 1][..o.look] == log[..o.look];
  }

  /** Appending a fitting line in any way, and going on in a phase that fits what is then on file. */
  lemma PutKeepsFits(s: Shared, p: nat, line: Line, o: Origin, how: Append, phase: Phase)
    requires Invariant(s) && LineFits(s.log, s.origins, line, o)
    requires PhaseFits(Appended(s.log, line, how), Noted(s.origins, o, how), phase)
    requires phase.Intending? ==> phase.at > |s.log|
    ensures Invariant(Put(s, p, line, o, how, phase))
  {
    var grown := s.(log := Appended(s.log, line, how), origins := Noted(s.origins, o, how));
    if how.FailedTorn? {
      LineKeepsFits(s, Torn, o);
    } else if !how.FailedLost? {
      LineKeepsFits(s, line, o);
    }
    assert forall q: nat :: PhaseOf(grown, q) == PhaseOf(s, q);
    AtsWithin(s);
    EnterKeepsFits(grown, p, phase);
    assert Put(s, p, line, o, how, phase) == Enter(grown, p, phase);
  }

  lemma AtsWithin(s: Shared)
    requires Invariant(s)
    ensures forall i :: 0 <= i < |s.sends| ==> s.sends[i].at <= |s.log|
    ensures forall p: nat :: PhaseOf(s, p).Intending? ==> PhaseOf(s, p).at <= |s.log|
  {
    forall i | 0 <= i < |s.sends| ensures s.sends[i].at <= |s.log| { assert SendFits(s.log, s.origins, s.sends[i]); }
    forall p: nat | PhaseOf(s, p).Intending? ensures PhaseOf(s, p).at <= |s.log| {
      assert PhaseFits(s.log, s.origins, PhaseOf(s, p));
    }
  }

  lemma IntendKeepsFits(s: Shared, p: nat, how: Append)
    requires Invariant(s) && PhaseOf(s, p).Looked?
    ensures Invariant(Step(s, Intends(p, how)))
  {
    var phase := PhaseOf(s, p);
    assert PhaseFits(s.log, s.origins, phase);
    var next := if how.Written? then Intending(phase.co, phase.step, phase.origin, |s.log| + 1) else Idle;
    PutKeepsFits(s, p, Entry(phase.co, phase.step, Started), phase.origin, how, next);
  }

  lemma SendKeepsFits(s: Shared, p: nat)
    requires Invariant(s) && PhaseOf(s, p).Intending?
    ensures Invariant(Step(s, Sends(p)))
  {
    var phase := PhaseOf(s, p);
    assert PhaseFits(s.log, s.origins, phase);
    var waiting := Enter(s, p, Awaiting(phase.co, phase.step, phase.origin, phase.at));
    EnterKeepsFits(s, p, Awaiting(phase.co, phase.step, phase.origin, phase.at));
    var t := Step(s, Sends(p));
    assert forall q: nat :: PhaseOf(t, q) == if q == p then PhaseOf(waiting, p) else PhaseOf(s, q);
    assert SendFits(t.log, t.origins, Send(phase.co, phase.step, phase.at, phase.origin.shown));
  }

  lemma ResultFits(log: seq<Line>, origins: seq<Origin>, co: string, step: WriteStep, o: Origin, at: nat, reply: Reply)
    requires Authored(log, origins) && IsIntent(log, origins, co, step, o, at) && o.reply.None?
    ensures LineFits(log, origins, Entry(co, step, ResultOf(reply)), o.(reply := Some(reply)))
  {
    FittingLook(log, origins, co, step, o, at);
    assert log[at - 1] == Entry(co, step, Started) && origins[at - 1] == o.(reply := Some(reply)).(reply := None);
    assert HasIntent(log, origins, co, step, o.(reply := Some(reply)));
  }

  lemma SettledFits(log: seq<Line>, origins: seq<Origin>, co: string, step: WriteStep, result: LineResult, how: Append)
    ensures PhaseFits(Appended(log, Entry(co, step, result), how), origins, AfterResult(co, step, result, how))
  {
    if how.Written? { assert Appended(log, Entry(co, step, result), how)[|log|] == Entry(co, step, result); }
  }

  lemma ConcludeKeepsFits(s: Shared, p: nat, reply: Reply, how: Append)
    requires Invariant(s) && PhaseOf(s, p).Awaiting?
    ensures Invariant(Step(s, Concludes(p, reply, how)))
  {
    var phase := PhaseOf(s, p);
    assert PhaseFits(s.log, s.origins, phase);
    ResultFits(s.log, s.origins, phase.co, phase.step, phase.origin, phase.at, reply);
    var origin := phase.origin.(reply := Some(reply));
    SettledFits(s.log, Noted(s.origins, origin, how), phase.co, phase.step, ResultOf(reply), how);
    PutKeepsFits(s, p, Entry(phase.co, phase.step, ResultOf(reply)), origin, how,
                 AfterResult(phase.co, phase.step, ResultOf(reply), how));
  }

  lemma LookKeepsFits(s: Shared, e: Event)
    requires Invariant(s) && (e.Looks? || e.LooksToClear? || e.Shows? || e.Stops?)
    ensures Invariant(Step(s, e))
  {
    assert PhaseFits(s.log, s.origins, PhaseOf(s, e.process));
    assert s.log[..|s.log|] == s.log;
    if Step(s, e) != s { EnterKeepsFits(s, e.process, PhaseOf(Step(s, e), e.process)); }
  }

  lemma StepKeepsFits(s: Shared, e: Event)
    requires Invariant(s)
    ensures Invariant(Step(s, e))
  {
    var phase := PhaseOf(s, e.process);
    match e
    case Intends(p, how) => if phase.Looked? { IntendKeepsFits(s, p, how); }
    case Sends(p) => if phase.Intending? { SendKeepsFits(s, p); }
    case Concludes(p, reply, how) => if phase.Awaiting? { ConcludeKeepsFits(s, p, reply, how); }
    case Clears(p, how) =>
      assert PhaseFits(s.log, s.origins, phase);
      if phase.Reviewing? { PutKeepsFits(s, p, Entry(phase.co, Uuid, Cleared), phase.origin, how, Idle); }
    case _ => LookKeepsFits(s, e);
  }

  lemma {:induction false} RunKeepsFits(s: Shared, events: seq<Event>)
    requires Invariant(s)
    ensures Invariant(Run(s, events))
  {
    if events != [] {
      RunKeepsFits(s, events[..|events| - 1]);
      StepKeepsFits(Run(s, events[..|events| - 1]), events[|events| - 1]);
    }
  }

  // ----- two writes of one CO ---------------------------------------------------------------------------------------

  /** A review of the CO stands after position `i` among the first `look` lines. */
  ghost predicate ReviewSeen(log: seq<Line>, co: string, i: int, look: nat) {
    exists k :: 0 <= k < |log| && i < k < look && log[k] == Entry(co, Uuid, Cleared)
  }

  lemma IntentLook(log: seq<Line>, origins: seq<Origin>, j: nat)
    requires Authored(log, origins) && j < |log| && log[j].Entry? && log[j].result.Started?
    ensures origins[j].look <= j && GateOpen(log[..origins[j].look], log[j].co, log[j].step, origins[j].readable)
  {
    FittingLook(log, origins, log[j].co, log[j].step, origins[j], j + 1);
  }

  lemma OnlyUuidIsReviewed(log: seq<Line>, origins: seq<Origin>, k: nat)
    requires Authored(log, origins) && k < |log| && log[k].Entry? && log[k].result.Cleared?
    ensures log[k].step.Uuid? && origins[k].look <= k
    ensures MayClear(log[..origins[k].look], log[k].co, origins[k].readable)
  {
    assert LineFits(log[..k], origins[..k], log[k], origins[k]);
    assert log[..k][..origins[k].look] == log[..origins[k].look];
  }

  /** A look past a line of its CO and step that found no result has a review between that line and itself. */
  lemma NothingFoundMeansReview(log: seq<Line>, co: string, step: WriteStep, i: nat, look: nat)
    requires i < look <= |log| && log[i].Entry? && log[i].co == co && log[i].step == step && !log[i].result.Cleared?
    requires Newest(log[..look], co, step).None?
    ensures exists k :: i < k < look && log[k] == Entry(co, step, Cleared)
  {
    ForgottenOnlyByReview(log[..look], co, step, i);
    var k :| i < k < look && log[..look][k] == Entry(co, step, Cleared);
    assert log[k] == Entry(co, step, Cleared);
  }

  /**
    The intent lines `i` and `j` of one CO: a review of the first was seen by the second exactly when it looked after
    it.
  */
  lemma SeenExactlyWhenLater(log: seq<Line>, origins: seq<Origin>, co: string, i: nat, j: nat)
    requires Authored(log, origins) && i < j < |log|
    requires log[i] == Entry(co, Uuid, Started) && log[j] == Entry(co, Uuid, Started)
    ensures ReviewSeen(log, co, i, origins[j].look) <==> i < origins[j].look
  {
    IntentLook(log, origins, j);
    if i < origins[j].look { NothingFoundMeansReview(log, co, Uuid, i, origins[j].look); }
  }

  lemma IdsLookBefore(log: seq<Line>, origins: seq<Origin>, co: string, i: nat, j: nat)
    requires Authored(log, origins) && i < j < |log|
    requires log[i] == Entry(co, Ids, Started) && log[j] == Entry(co, Ids, Started)
    ensures origins[j].look <= i
  {
    IntentLook(log, origins, j);
    if i < origins[j].look {
      NothingFoundMeansReview(log, co, Ids, i, origins[j].look);
      var k :| i < k < origins[j].look && log[k] == Entry(co, Ids, Cleared);
      OnlyUuidIsReviewed(log, origins, k);
    }
  }

  lemma StageLookBefore(log: seq<Line>, origins: seq<Origin>, co: string, i: nat, j: nat)
    requires Authored(log, origins) && i < j < |log|
    requires log[i] == Entry(co, Stage, Started) && log[j] == Entry(co, Stage, Started)
    ensures origins[j].look <= j
    ensures origins[j].look <= i || Newest(log[..origins[j].look], co, Stage) == Some(Verified)
  {
    IntentLook(log, origins, j);
    if i < origins[j].look && Newest(log[..origins[j].look], co, Stage).None? {
      NothingFoundMeansReview(log, co, Stage, i, origins[j].look);
      var k :| i < k < origins[j].look && log[k] == Entry(co, Stage, Cleared);
      OnlyUuidIsReviewed(log, origins, k);
    }
  }

  /** How many lines the last look of a send's call saw. */
  function LookOfSend(s: Shared, send: Send): nat {
    if 0 < send.at <= |s.origins| then s.origins[send.at - 1].look else 0
  }

  /** Two sends, `p` the one whose intent line comes first. */
  predicate TwoSends(s: Shared, co: string, step: WriteStep, p: nat, q: nat) {
    p < |s.sends| && q < |s.sends| && s.sends[p].co == co && s.sends[q].co == co
    && s.sends[p].step == step && s.sends[q].step == step && s.sends[p].at < s.sends[q].at
  }

  lemma InitialFits()
    ensures Invariant(NOTHING)
  {
  }

  lemma ReachedFits(events: seq<Event>)
    ensures Invariant(Run(NOTHING, events))
  {
    InitialFits();
    RunKeepsFits(NOTHING, events);
  }

  lemma SendIsIntent(s: Shared, p: nat)
    requires Invariant(s) && p < |s.sends|
    ensures Authored(s.log, s.origins)
    ensures 0 < s.sends[p].at <= |s.log| == |s.origins|
    ensures s.log[s.sends[p].at - 1] == Entry(s.sends[p].co, s.sends[p].step, Started)
    ensures s.origins[s.sends[p].at - 1].shown == s.sends[p].shown
  {
    assert SendFits(s.log, s.origins, s.sends[p]);
  }

  /** Every send has an intent line of its own, on file before it and after its call's last look. */
  lemma SendsHaveOwnIntents(events: seq<Event>, p: nat, q: nat)
    requires var s := Run(NOTHING, events); p < |s.sends| && q < |s.sends|
    ensures var s := Run(NOTHING, events);
            && 0 < s.sends[p].at <= |s.log|
              && s.log[s.sends[p].at - 1] == Entry(s.sends[p].co, s.sends[p].step, Started)
            && LookOfSend(s, s.sends[p]) < s.sends[p].at
            && (p != q ==> s.sends[p].at != s.sends[q].at)
  {
    ReachedFits(events);
    var s := Run(NOTHING, events);
    SendIsIntent(s, p);
    IntentLook(s.log, s.origins, s.sends[p].at - 1);
  }

  lemma TwoIntents(s: Shared, co: string, step: WriteStep, p: nat, q: nat) returns (i: nat, j: nat)
    requires SendsFit(s.log, s.origins, s.sends) && TwoSends(s, co, step, p, q)
    ensures i + 1 == s.sends[p].at && j + 1 == s.sends[q].at && i < j < |s.log|
    ensures s.log[i] == Entry(co, step, Started) && s.log[j] == Entry(co, step, Started)
    ensures j < |s.origins| && LookOfSend(s, s.sends[q]) == s.origins[j].look
  {
    assert SendFits(s.log, s.origins, s.sends[p]) && SendFits(s.log, s.origins, s.sends[q]);
    i, j := s.sends[p].at - 1, s.sends[q].at - 1;
  }

  /**
    Two Account UUID writes of one CO, over every interleaving: the later call acted on a review of the earlier one
    exactly when its last look came after the earlier intent line. So either a review stands between the two intent
    lines, or the later call had looked before the earlier one wrote its own.
  */
  lemma ReviewedExactlyUnlessOverlapping(events: seq<Event>, co: string, p: nat, q: nat)
    requires TwoSends(Run(NOTHING, events), co, Uuid, p, q)
    ensures var s := Run(NOTHING, events);
            ReviewSeen(s.log, co, s.sends[p].at - 1, LookOfSend(s, s.sends[q])) <==>
              s.sends[p].at <= LookOfSend(s, s.sends[q])
  {
    var s := Run(NOTHING, events);
    ReachedFits(events);
    var i, j := TwoIntents(s, co, Uuid, p, q);
    SeenExactlyWhenLater(s.log, s.origins, co, i, j);
  }

  /** Two ids writes of one CO: the later call's last look came before the earlier intent line. */
  lemma IdsTwiceOnlyByOverlap(events: seq<Event>, co: string, p: nat, q: nat)
    requires TwoSends(Run(NOTHING, events), co, Ids, p, q)
    ensures var s := Run(NOTHING, events); LookOfSend(s, s.sends[q]) < s.sends[p].at
  {
    var s := Run(NOTHING, events);
    ReachedFits(events);
    var i, j := TwoIntents(s, co, Ids, p, q);
    IdsLookBefore(s.log, s.origins, co, i, j);
  }

  /** Two stage writes of one CO: the same, or the later look found a verified stage line as the newest. */
  lemma StageTwiceOnlyByOverlap(events: seq<Event>, co: string, p: nat, q: nat)
    requires TwoSends(Run(NOTHING, events), co, Stage, p, q)
    ensures var s := Run(NOTHING, events);
            var look := LookOfSend(s, s.sends[q]);
            look <= |s.log| && (look < s.sends[p].at || Newest(s.log[..look], co, Stage) == Some(Verified))
  {
    var s := Run(NOTHING, events);
    ReachedFits(events);
    var i, j := TwoIntents(s, co, Stage, p, q);
    StageLookBefore(s.log, s.origins, co, i, j);
  }

  /** An earlier ids write of the CO was accepted and read back as verified. */
  ghost predicate IdsConfirmed(log: seq<Line>, origins: seq<Origin>, co: string, look: nat) {
    exists k :: 0 <= k < look && k < |log| && k < |origins|
      && log[k] == Entry(co, Ids, Verified) && origins[k].reply == Some(Accepted(true))
  }

  /** Every result line on file is what its call's answer earned, after that call's intent line. */
  lemma ResultsAreEarned(events: seq<Event>, k: nat)
    requires var s := Run(NOTHING, events);
             k < |s.log| && s.log[k].Entry? && !s.log[k].result.Started? && !s.log[k].result.Cleared?
    ensures var s := Run(NOTHING, events);
            && |s.origins| == |s.log| && Earned(s.log[k].result, s.origins[k].reply)
            && exists m :: 0 <= m < k && s.log[m] == Entry(s.log[k].co, s.log[k].step, Started)
  {
    var s := Run(NOTHING, events);
    ReachedFits(events);
    LineIsEarned(s.log, s.origins, k);
  }

  lemma LineIsEarned(log: seq<Line>, origins: seq<Origin>, k: nat)
    requires Authored(log, origins) && k < |log|
    requires log[k].Entry? && !log[k].result.Started? && !log[k].result.Cleared?
    ensures Earned(log[k].result, origins[k].reply)
    ensures exists m :: 0 <= m < k && log[m] == Entry(log[k].co, log[k].step, Started)
  {
    assert LineFits(log[..k], origins[..k], log[k], origins[k]);
    var m :| 0 <= m < k && log[..k][m] == Entry(log[k].co, log[k].step, Started);
    assert log[m] == Entry(log[k].co, log[k].step, Started);
  }

  lemma VerifiedIsConfirmed(log: seq<Line>, origins: seq<Origin>, co: string, look: nat)
    requires Authored(log, origins) && look <= |log| && IdsVerified(log[..look], co)
    ensures IdsConfirmed(log, origins, co, look)
  {
    var k :| 0 <= k < look && log[..look][k] == Entry(co, Ids, Verified);
    assert log[k] == Entry(co, Ids, Verified);
    LineIsEarned(log, origins, k);
  }

  /**
    Also when calls overlap, a stage write is sent only after the row showed the ids, or an earlier ids write of the
    CO was accepted and read back as verified.
  */
  lemma StageAfterIds(events: seq<Event>, p: nat)
    requires var s := Run(NOTHING, events); p < |s.sends| && s.sends[p].step.Stage?
    ensures var s := Run(NOTHING, events);
            var look := LookOfSend(s, s.sends[p]);
            look <= |s.log| && (s.sends[p].shown || IdsConfirmed(s.log, s.origins, s.sends[p].co, look))
  {
    var s := Run(NOTHING, events);
    ReachedFits(events);
    SendIsIntent(s, p);
    FittingLook(s.log, s.origins, s.sends[p].co, Stage, s.origins[s.sends[p].at - 1], s.sends[p].at);
    if !s.sends[p].shown { VerifiedIsConfirmed(s.log, s.origins, s.sends[p].co, LookOfSend(s, s.sends[p])); }
  }

  // ----- calls that overlap -----------------------------------------------------------------------------------------

  lemma RunGrows(s: Shared, events: seq<Event>, e: Event)
    ensures Run(s, events + [e]) == Step(Run(s, events), e)
  {
    assert (events + [e])[..|events|] == events;
  }

  lemma {:induction false} RunBoth(s: Shared, first: seq<Event>, second: seq<Event>)
    ensures Run(s, first + second) == Run(Run(s, first), second)
    decreases |second|
  {
    if second == [] {
      assert first + second == first;
    } else {
      assert (first + second)[..|first + second| - 1] == first + second[..|second| - 1];
      RunBoth(s, first, second[..|second| - 1]);
    }
  }

  lemma RunOne(s: Shared, e: Event)
    ensures Run(s, [e]) == Step(s, e)
  {
    RunGrows(s, [], e);
    assert [] + [e] == [e];
  }

  lemma RunTwo(s: Shared, d: Event, e: Event)
    ensures Run(s, [d]) == Step(s, d) && Run(s, [d] + [e]) == Step(Step(s, d), e)
  {
    RunOne(s, d);
    RunGrows(s, [d], e);
  }

  lemma RunThree(s: Shared, d: Event, e: Event, f: Event)
    ensures Run(s, [d] + ([e] + [f])) == Step(Step(Step(s, d), e), f)
  {
    RunTwo(s, d, e);
    RunGrows(s, [d] + [e], f);
    assert [d] + ([e] + [f]) == [d] + [e] + [f];
  }

  /** Both look, both write their intent, both send. */
  function BothAtOnce(a: nat, b: nat, co: string, step: WriteStep): seq<Event> {
    ([Looks(a, co, step, true, true)] + [Looks(b, co, step, true, true)])
    + ([Intends(a, Written)] + [Intends(b, Written)])
    + ([Sends(a)] + [Sends(b)])
  }

  lemma BothLook(s: Shared, a: nat, b: nat, co: string, step: WriteStep) returns (t: Shared)
    requires a != b && MayLook(PhaseOf(s, a), co, step) && MayLook(PhaseOf(s, b), co, step)
    requires GateOpen(s.log, co, step, true)
    ensures t == Run(s, [Looks(a, co, step, true, true)] + [Looks(b, co, step, true, true)])
    ensures t.log == s.log && t.origins == s.origins && t.sends == s.sends
    ensures PhaseOf(t, a) == Looked(co, step, LookOf(s, PhaseOf(s, a), step, true))
    ensures PhaseOf(t, b) == Looked(co, step, LookOf(s, PhaseOf(s, b), step, true))
  {
    RunTwo(s, Looks(a, co, step, true, true), Looks(b, co, step, true, true));
    var u := Step(s, Looks(a, co, step, true, true));
    assert PhaseOf(u, b) == PhaseOf(s, b);
    t := Step(u, Looks(b, co, step, true, true));
  }

  lemma BothIntend(s: Shared, a: nat, b: nat, co: string, step: WriteStep, x: Origin, y: Origin) returns (t: Shared)
    requires a != b && PhaseOf(s, a) == Looked(co, step, x) && PhaseOf(s, b) == Looked(co, step, y)
    ensures t == Run(s, [Intends(a, Written)] + [Intends(b, Written)])
    ensures t.log == s.log + [Entry(co, step, Started), Entry(co, step, Started)]
    ensures t.origins == s.origins + [x, y] && t.sends == s.sends
    ensures PhaseOf(t, a) == Intending(co, step, x, |s.log| + 1) && PhaseOf(t, b) == Intending(co, step, y, |s.log| + 2)
  {
    RunTwo(s, Intends(a, Written), Intends(b, Written));
    var u := Step(s, Intends(a, Written));
    assert PhaseOf(u, b) == PhaseOf(s, b);
    t := Step(u, Intends(b, Written));
  }

  lemma BothSend(s: Shared, a: nat, b: nat, co: string, step: WriteStep, x: Origin, y: Origin, m: nat, n: nat)
    returns (t: Shared)
    requires a != b && PhaseOf(s, a) == Intending(co, step, x, m) && PhaseOf(s, b) == Intending(co, step, y, n)
    ensures t == Run(s, [Sends(a)] + [Sends(b)]) && t.log == s.log && t.origins == s.origins
    ensures t.sends == s.sends + [Send(co, step, m, x.shown), Send(co, step, n, y.shown)]
  {
    RunTwo(s, Sends(a), Sends(b));
    var u := Step(s, Sends(a));
    assert PhaseOf(u, b) == PhaseOf(s, b);
    t := Step(u, Sends(b));
  }

  /**
    From every state in which two processes may look and the gate is open, looks of both before the intent of either
    lead to two writes one right after the other, for each of the three steps: no lock keeps the calls apart.
  */
  lemma OverlappingCallsWriteTwice(s: Shared, a: nat, b: nat, co: string, step: WriteStep)
    requires |s.origins| == |s.log| && a != b && MayLook(PhaseOf(s, a), co, step) && MayLook(PhaseOf(s, b), co, step)
    requires GateOpen(s.log, co, step, true)
    ensures var t := Run(s, BothAtOnce(a, b, co, step));
            var n := |s.sends|;
            && |t.sends| == n + 2 && TwoSends(t, co, step, n, n + 1)
            && t.log == s.log + [Entry(co, step, Started), Entry(co, step, Started)]
            && LookOfSend(t, t.sends[n]) == |s.log| && LookOfSend(t, t.sends[n + 1]) == |s.log|
  {
    var x, y := LookOf(s, PhaseOf(s, a), step, true), LookOf(s, PhaseOf(s, b), step, true);
    var u := BothLook(s, a, b, co, step);
    var v := BothIntend(u, a, b, co, step, x, y);
    var t := BothSend(v, a, b, co, step, x, y, |s.log| + 1, |s.log| + 2);
    var looks := [Looks(a, co, step, true, true)] + [Looks(b, co, step, true, true)];
    var intents := [Intends(a, Written)] + [Intends(b, Written)];
    RunBoth(s, looks, intents);
    RunBoth(s, looks + intents, [Sends(a)] + [Sends(b)]);
  }

  // ----- a final result ---------------------------------------------------------------------------------------------

  predicate FinalLine(line: Line, co: string) {
    line == Entry(co, Uuid, Verified) || line == Entry(co, Uuid, Rejected)
  }

  predicate OpenLine(line: Line, co: string) {
    line == Entry(co, Uuid, Started) || line == Entry(co, Uuid, Uncertain)
  }

  /**
    After the result line `f` and within the first `look` lines, a call that had looked before it left a line of its
    own.
  */
  ghost predicate LeftOver(log: seq<Line>, origins: seq<Origin>, co: string, f: nat, look: nat) {
    exists n :: f < n < look && n < |log| && n < |origins| && OpenLine(log[n], co) && origins[n].look <= f
  }

  /**
    The review `k` undoes the result line `f`: its tool could not read the log, or looked before that line, or saw
    what an overlapping call had left after it.
  */
  ghost predicate Undoes(log: seq<Line>, origins: seq<Origin>, co: string, f: nat, k: nat) {
    f < k < |log| && k < |origins| && log[k] == Entry(co, Uuid, Cleared)
    && (!origins[k].readable || origins[k].look <= f || LeftOver(log, origins, co, f, origins[k].look))
  }

  /** The newest line that counts. */
  lemma {:induction false} NewestLine(log: seq<Line>, co: string, step: WriteStep) returns (n: nat)
    requires Newest(log, co, step).Some?
    ensures n < |log| && log[n] == Entry(co, step, Newest(log, co, step).value)
    ensures forall m :: n < m < |log| ==> !(log[m].Entry? && log[m].co == co && log[m].step == step)
  {
    var last := log[|log| - 1];
    if last.Entry? && last.co == co && last.step == step {
      n := |log| - 1;
    } else {
      n := NewestLine(log[..|log| - 1], co, step);
    }
  }

  lemma {:induction false} FirstReview(log: seq<Line>, co: string, f: nat, k: nat) returns (first: nat)
    requires f < k < |log| && log[k] == Entry(co, Uuid, Cleared)
    ensures f < first <= k && log[first] == Entry(co, Uuid, Cleared)
    ensures forall m :: f < m < first ==> log[m] != Entry(co, Uuid, Cleared)
    decreases k
  {
    if m :| f < m < k && log[m] == Entry(co, Uuid, Cleared) { first := FirstReview(log, co, f, m); } else {
      first := k;
    }
  }

  /** Until the first review after it, only calls that had looked before a result line add a line of their own. */
  lemma LineLookedBefore(log: seq<Line>, origins: seq<Origin>, co: string, f: nat, n: nat)
    requires Authored(log, origins) && f < n < |log| && FinalLine(log[f], co) && OpenLine(log[n], co)
    requires forall m :: f < m < n ==> log[m] != Entry(co, Uuid, Cleared)
    ensures origins[n].look <= f
  {
    var m: nat := n;
    if log[n].result.Uncertain? {
      assert LineFits(log[..n], origins[..n], log[n], origins[n]);
      m :| m < n && log[..n][m] == Entry(co, Uuid, Started) && origins[..n][m] == origins[n].(reply := None);
    }
    assert log[m] == Entry(co, Uuid, Started) && origins[m].look == origins[n].look;
    IntentLook(log, origins, m);
    if f < origins[m].look { NothingFoundMeansReview(log, co, Uuid, f, origins[m].look); }
  }

  lemma ClearableAfterFinal(log: seq<Line>, co: string, f: nat, look: nat) returns (n: nat)
    requires f < look <= |log| && FinalLine(log[f], co) && Torn !in log[..look] && MayClear(log[..look], co, true)
    ensures f < n < look && OpenLine(log[n], co)
  {
    n := NewestLine(log[..look], co, Uuid);
    assert log[..look][f] == log[f] && log[..look][n] == log[n];
  }

  lemma FirstReviewUndoes(log: seq<Line>, origins: seq<Origin>, co: string, f: nat, k: nat)
    requires Authored(log, origins) && f < k < |log| && FinalLine(log[f], co) && Torn !in log[..k]
    requires log[k] == Entry(co, Uuid, Cleared) && forall m :: f < m < k ==> log[m] != Entry(co, Uuid, Cleared)
    ensures Undoes(log, origins, co, f, k)
  {
    var look := origins[k].look;
    OnlyUuidIsReviewed(log, origins, k);
    if origins[k].readable && f < look {
      TornInLonger(log, look, k);
      var n := ClearableAfterFinal(log, co, f, look);
      LineLookedBefore(log, origins, co, f, n);
    }
  }

  lemma TornInLonger(log: seq<Line>, k: nat, look: nat)
    requires k <= look <= |log| && Torn !in log[..look]
    ensures Torn !in log[..k]
  {
    assert log[..k] == log[..look][..k];
  }

  lemma LaterLookMeansUndone(log: seq<Line>, origins: seq<Origin>, co: string, f: nat, j: nat)
    requires Authored(log, origins) && f < j < |log| && FinalLine(log[f], co) && log[j] == Entry(co, Uuid, Started)
    requires f < origins[j].look
    ensures exists k :: f < k < origins[j].look && Undoes(log, origins, co, f, k)
  {
    IntentLook(log, origins, j);
    NothingFoundMeansReview(log, co, Uuid, f, origins[j].look);
    var k :| f < k < origins[j].look && log[k] == Entry(co, Uuid, Cleared);
    var first := FirstReview(log, co, f, k);
    TornInLonger(log, first, origins[j].look);
    FirstReviewUndoes(log, origins, co, f, first);
  }

  /** The send `p` of the CO has its intent line after the result line `f`. */
  predicate SentAfterFinal(s: Shared, co: string, f: nat, p: nat) {
    f < |s.log| && FinalLine(s.log[f], co) && p < |s.sends| && s.sends[p].co == co && s.sends[p].step.Uuid?
    && f < s.sends[p].at - 1
  }

  lemma SentAfterFinalUndone(s: Shared, co: string, f: nat, p: nat)
    requires Invariant(s) && SentAfterFinal(s, co, f, p) && f < LookOfSend(s, s.sends[p])
    ensures exists k :: f < k < LookOfSend(s, s.sends[p]) && Undoes(s.log, s.origins, co, f, k)
  {
    SendIsIntent(s, p);
    LaterLookMeansUndone(s.log, s.origins, co, f, s.sends[p].at - 1);
  }

  /**
    After a verified or rejected write no call writes that CO again, over every interleaving, unless its last look
    came before the result line, or a review undid it: one whose tool could not read the log, looked before the result
    line, or saw what an overlapping call had left after it.
  */
  lemma NoWriteAfterFinal(events: seq<Event>, co: string, f: nat, p: nat)
    requires SentAfterFinal(Run(NOTHING, events), co, f, p)
    ensures var s := Run(NOTHING, events);
            var look := LookOfSend(s, s.sends[p]);
            look <= f || exists k :: f < k < look && Undoes(s.log, s.origins, co, f, k)
  {
    var s := Run(NOTHING, events);
    ReachedFits(events);
    if f < LookOfSend(s, s.sends[p]) { SentAfterFinalUndone(s, co, f, p); }
  }

  predicate RecordsReview(s: Shared, e: Event, co: string) {
    e.Clears? && PhaseOf(s, e.process).Reviewing? && PhaseOf(s, e.process).co == co
      && (e.how.Written? || e.how.FailedWhole?)
  }

  lemma PutKeepsShut(log: seq<Line>, line: Line, how: Append, co: string)
    requires !GateOpen(log, co, Uuid, true)
    ensures GateOpen(Appended(log, line, how), co, Uuid, true) <==>
      Torn !in log && line == Entry(co, Uuid, Cleared) && (how.Written? || how.FailedWhole?)
  {
    NewestOfAppend(log, line, co, Uuid);
    if Torn in log { assert Torn in Appended(log, line, how); }
    if how.FailedTorn? { assert (log + [Torn])[|log|] == Torn; }
  }

  /** A gate shut by a readable log opens in one step exactly when that step records a review of the CO. */
  lemma OnlyReviewReopens(s: Shared, e: Event, co: string)
    requires Torn !in s.log && Newest(s.log, co, Uuid).Some?
    ensures GateOpen(Step(s, e).log, co, Uuid, true) <==> RecordsReview(s, e, co)
  {
    var phase := PhaseOf(s, e.process);
    match e
    case Intends(p, how) => if phase.Looked? { PutKeepsShut(s.log, Entry(phase.co, phase.step, Started), how, co); }
    case Concludes(p, reply, how) =>
      if phase.Awaiting? { PutKeepsShut(s.log, Entry(phase.co, phase.step, ResultOf(reply)), how, co); }
    case Clears(p, how) => if phase.Reviewing? { PutKeepsShut(s.log, Entry(phase.co, Uuid, Cleared), how, co); }
    case _ =>
  }

  /**
    Whatever made the tool take its decision: once it has, its review lets another call write the CO again, even over a
    verified result.
  */
  lemma DecidedReviewLetsWrite(s: Shared, tool: nat, c: nat, co: string)
    requires PhaseOf(s, tool).Reviewing? && PhaseOf(s, tool).co == co && PhaseOf(s, c).Idle? && tool != c
    requires Torn !in s.log
    ensures var t := Run(s,
      [Clears(tool, Written)] + [Looks(c, co, Uuid, true, true)] + [Intends(c, Written)] + [Sends(c)]);
            t.sends == s.sends + [Send(co, Uuid, |s.log| + 2, false)]
            && t.log == s.log + [Entry(co, Uuid, Cleared), Entry(co, Uuid, Started)]
  {
    var clear, look := [Clears(tool, Written)], [Looks(c, co, Uuid, true, true)];
    var u := Step(s, clear[0]);
    NewestOfAppend(s.log, Entry(co, Uuid, Cleared), co, Uuid);
    assert PhaseOf(u, c) == PhaseOf(s, c);
    RunGrows(s, [], clear[0]);
    assert [] + clear == clear;
    RunGrows(s, clear, look[0]);
    RunGrows(s, clear + look, Intends(c, Written));
    RunGrows(s, clear + look + [Intends(c, Written)], Sends(c));
  }

  lemma TakenDuringWrite(s: Shared, a: nat, tool: nat, co: string) returns (t: Shared)
    requires PhaseOf(s, a).Idle? && PhaseOf(s, tool).Idle? && a != tool && GateOpen(s.log, co, Uuid, true)
    ensures t == Run(s, [Looks(a, co, Uuid, true, true)] + ([Intends(a, Written)] + [LooksToClear(tool, co, true)]))
    ensures t.sends == s.sends && t.log == s.log + [Entry(co, Uuid, Started)]
    ensures PhaseOf(t, a) == Intending(co, Uuid, Origin(|s.log|, true, false, None), |s.log| + 1)
    ensures PhaseOf(t, tool) == Reviewing(co, Origin(|s.log| + 1, true, false, None))
  {
    RunThree(s, Looks(a, co, Uuid, true, true), Intends(a, Written), LooksToClear(tool, co, true));
    NewestOfAppend(s.log, Entry(co, Uuid, Started), co, Uuid);
    var u := Step(Step(s, Looks(a, co, Uuid, true, true)), Intends(a, Written));
    assert PhaseOf(u, tool) == PhaseOf(s, tool) && u.log == s.log + [Entry(co, Uuid, Started)];
    t := Step(u, LooksToClear(tool, co, true));
  }

  lemma SentAndVerified(s: Shared, a: nat, co: string, o: Origin, at: nat) returns (t: Shared)
    requires PhaseOf(s, a) == Intending(co, Uuid, o, at)
    ensures t == Run(s, [Sends(a)] + [Concludes(a, Accepted(true), Written)])
    ensures t.sends == s.sends + [Send(co, Uuid, at, o.shown)] && t.log == s.log + [Entry(co, Uuid, Verified)]
    ensures forall p: nat :: p != a ==> PhaseOf(t, p) == PhaseOf(s, p)
  {
    RunTwo(s, Sends(a), Concludes(a, Accepted(true), Written));
    t := Step(Step(s, Sends(a)), Concludes(a, Accepted(true), Written));
  }

  /** A tool that looks while a write is under way decides on its review before the write is verified. */
  lemma EarlyLookDecides(s: Shared, a: nat, tool: nat, co: string)
    requires PhaseOf(s, a).Idle? && PhaseOf(s, tool).Idle? && a != tool && GateOpen(s.log, co, Uuid, true)
    ensures var decided := [Looks(a, co, Uuid, true, true)] + ([Intends(a, Written)] + [LooksToClear(tool, co, true)]);
            var t := Run(s, decided + ([Sends(a)] + [Concludes(a, Accepted(true), Written)]));
            && t.sends == s.sends + [Send(co, Uuid, |s.log| + 1, false)]
            && t.log == s.log + [Entry(co, Uuid, Started), Entry(co, Uuid, Verified)] && Torn !in t.log
            && PhaseOf(t, tool) == Reviewing(co, Origin(|s.log| + 1, true, false, None))
  {
    var u := TakenDuringWrite(s, a, tool, co);
    var t := SentAndVerified(u, a, co, Origin(|s.log|, true, false, None), |s.log| + 1);
    RunBoth(s, [Looks(a, co, Uuid, true, true)] + ([Intends(a, Written)] + [LooksToClear(tool, co, true)]),
            [Sends(a)] + [Concludes(a, Accepted(true), Written)]);
  }
}
