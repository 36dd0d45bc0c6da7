/**
  The Case 3 follow-up, one call after the other: the ids are written once, then the stage is moved, each under its own
  intent line. Calls that overlap are the subject of `OverlappingWrites`.
*/
module Case3Followup {
  import opened Wrappers
  import opened WriteLog
  import O = OverlappingWrites
  import SequentialWrites

  datatype Plan = Ready | Present | Blocked

  /** One read of the row with the checks besides the log, and whether the log could be read for each step. */
  datatype Look = Look(ok: bool, ids: Plan, stage: Plan, idsReadable: bool, stageReadable: bool)

  /**
    One call: the owner's confirmation or the automatic follow-up. `same` says the second read found the same ids and
    revision.
  */
  datatype Call = Call(
    co: string, authorised: bool, first: Look, again: Look, same: bool, idsArgvOk: bool, idsAttempt: Attempt,
    stageReadable: bool, stagePlan: Plan, stageArgvOk: bool, stageAttempt: Attempt)

  datatype Verdict = Open | AlreadyComplete | Refuses

  predicate StageMayGo(log: seq<Line>, co: string, readable: bool) { O.GateOpen(log, co, Stage, readable) }

  function Blocker(log: seq<Line>, co: string, look: Look): Verdict {
    if !look.ok || look.ids.Blocked? || look.stage.Blocked? then Refuses
    else if look.ids.Present? && look.stage.Present? then AlreadyComplete
    else if look.ids.Ready? && Last(log, co, Ids, look.idsReadable).Some? then Refuses
    else if look.stage.Ready? && !StageMayGo(log, co, look.stageReadable) then Refuses
    else Open
  }

  datatype IdsAnswer = NotSent | AlreadyPresent | Sent(told: Told)

  predicate IdsSettled(a: IdsAnswer) { a.AlreadyPresent? || a == Sent(Told.Told(Verified)) }

  function IdsAnswerOf(log: seq<Line>, c: Call): IdsAnswer {
    match Blocker(log, c.co, c.again)
    case Refuses => NotSent
    case AlreadyComplete => AlreadyPresent
    case Open =>
      if !c.same then NotSent
      else if c.again.ids.Present? then AlreadyPresent
      else if c.idsArgvOk then Sent(ToldBy(c.idsAttempt))
      else NotSent
  }

  function AfterIds(s: State, c: Call): State {
    if IdsAnswerOf(s.log, c).Sent? then Guarded(s, c.co, Ids, false, c.idsAttempt) else s
  }

  predicate StageGoes(log: seq<Line>, c: Call) {
    StageMayGo(log, c.co, c.stageReadable) && c.stagePlan.Ready? && c.stageArgvOk
  }

  function AfterStage(s: State, c: Call, shown: bool): State {
    if StageGoes(s.log, c) then Guarded(s, c.co, Stage, shown, c.stageAttempt) else s
  }

  function Followed(s: State, c: Call): State {
    if !c.authorised || !Blocker(s.log, c.co, c.first).Open? then s else
    var after := AfterIds(s, c);
    if IdsSettled(IdsAnswerOf(s.log, c)) then AfterStage(after, c, IdsAnswerOf(s.log, c).AlreadyPresent?) else after
  }

  method WriteIds(ledger: Ledger, c: Call) returns (answer: IdsAnswer)
    modifies ledger
    ensures ledger.View() == AfterIds(old(ledger.View()), c) && answer == IdsAnswerOf(old(ledger.log), c)
  {
    var code := Blocker(ledger.log, c.co, c.again);
    if code.Refuses? { return NotSent; }
    if code.Open? && !c.same { return NotSent; }
    if code.AlreadyComplete? { return AlreadyPresent; }
    if c.again.ids.Present? { return AlreadyPresent; }
    if !c.idsArgvOk { return NotSent; }
    var told := ledger.WriteOnce(c.co, Ids, false, c.idsAttempt);
    return Sent(told);
  }

  method WriteStage(ledger: Ledger, c: Call, shown: bool)
    modifies ledger
    ensures ledger.View() == AfterStage(old(ledger.View()), c, shown)
  {
    if !StageMayGo(ledger.log, c.co, c.stageReadable) { return; }
    if !c.stagePlan.Ready? || !c.stageArgvOk { return; }
    var told := ledger.WriteOnce(c.co, Stage, shown, c.stageAttempt);
  }

  method FollowUp(ledger: Ledger, c: Call)
    modifies ledger
    ensures ledger.View() == Followed(old(ledger.View()), c)
  {
    if !c.authorised { return; }
    if !Blocker(ledger.log, c.co, c.first).Open? { return; }
    var ids := WriteIds(ledger, c);
    if ids != Sent(Told.Told(Verified)) && ids != AlreadyPresent { return; }
    WriteStage(ledger, c, ids.AlreadyPresent?);
  }

  function Run(s: State, calls: seq<Call>): State {
    if calls == [] then s else Followed(Run(s, calls[..|calls| - 1]), calls[|calls| - 1])
  }

  const NOTHING := State([], [])

  // ----- a sequence of calls as a schedule --------------------------------------------------------------------------

  /** What one process does for the ids, with nothing in between. */
  function IdsSteps(log: seq<Line>, c: Call): seq<O.Event> {
    match IdsAnswerOf(log, c)
    case Sent(_) => SequentialWrites.LookAndWrite(0, c.co, Ids, true, c.again.idsReadable, c.idsAttempt)
    case AlreadyPresent => [O.Shows(0, c.co)]
    case NotSent => []
  }

  function StageSteps(c: Call): seq<O.Event> {
    SequentialWrites.LookAndWrite(0, c.co, Stage, c.stagePlan.Ready? && c.stageArgvOk, c.stageReadable, c.stageAttempt)
  }

  function StepsOf(log: seq<Line>, c: Call): seq<O.Event> {
    if !c.authorised || !Blocker(log, c.co, c.first).Open? then []
    else IdsSteps(log, c) + if IdsSettled(IdsAnswerOf(log, c)) then StageSteps(c) else []
  }

  function Schedule(calls: seq<Call>): seq<O.Event> {
    if calls == [] then [] else
    var before := calls[..|calls| - 1];
    Schedule(before) + StepsOf(Run(NOTHING, before).log, calls[|calls| - 1])
  }

  ghost predicate Matches(s: State, t: O.Shared) {
    t.log == s.log && t.sends == s.sends && SequentialWrites.Orderly(t)
    && forall i :: 0 <= i < |s.sends| ==> !s.sends[i].step.Uuid?
  }

  lemma IdsMatch(s: State, t: O.Shared, c: Call) returns (u: O.Shared)
    requires Matches(s, t) && O.PhaseOf(t, 0).Idle?
    ensures u == O.Run(t, IdsSteps(s.log, c)) && Matches(AfterIds(s, c), u)
    ensures O.PhaseOf(u, 0) ==
      if IdsSettled(IdsAnswerOf(s.log, c)) then O.Settled(c.co, IdsAnswerOf(s.log, c).AlreadyPresent?) else O.Idle
  {
    match IdsAnswerOf(s.log, c)
    case Sent(_) => u := SequentialWrites.LookAndWriteAlone(t, 0, c.co, Ids, true, c.again.idsReadable, c.idsAttempt);
    case AlreadyPresent =>
      O.RunOne(t, O.Shows(0, c.co));
      u := O.Step(t, O.Shows(0, c.co));
    case NotSent => u := t;
  }

  lemma StageMatches(s: State, t: O.Shared, c: Call, shown: bool) returns (u: O.Shared)
    requires Matches(s, t) && O.PhaseOf(t, 0) == O.Settled(c.co, shown)
    ensures u == O.Run(t, StageSteps(c)) && Matches(AfterStage(s, c, shown), u) && O.PhaseOf(u, 0).Idle?
  {
    u := SequentialWrites.LookAndWriteAlone(t, 0, c.co, Stage, c.stagePlan.Ready? && c.stageArgvOk, c.stageReadable,
                                            c.stageAttempt);
  }

  lemma CallMatches(s: State, t: O.Shared, c: Call)
    requires Matches(s, t) && O.PhaseOf(t, 0).Idle?
    ensures var u := O.Run(t, StepsOf(s.log, c)); Matches(Followed(s, c), u) && O.PhaseOf(u, 0).Idle?
  {
    if c.authorised && Blocker(s.log, c.co, c.first).Open? {
      var u := IdsMatch(s, t, c);
      if IdsSettled(IdsAnswerOf(s.log, c)) {
        var v := StageMatches(AfterIds(s, c), u, c, IdsAnswerOf(s.log, c).AlreadyPresent?);
        O.RunBoth(t, IdsSteps(s.log, c), StageSteps(c));
      } else {
        assert IdsSteps(s.log, c) + [] == IdsSteps(s.log, c);
      }
    }
  }

  lemma {:induction false} ScheduleMatches(calls: seq<Call>)
    ensures var t := O.Run(O.NOTHING, Schedule(calls)); Matches(Run(NOTHING, calls), t) && O.PhaseOf(t, 0).Idle?
  {
    if calls != [] {
      var before, c := calls[..|calls| - 1], calls[|calls| - 1];
      ScheduleMatches(before);
      O.RunBoth(O.NOTHING, Schedule(before), StepsOf(Run(NOTHING, before).log, c));
      CallMatches(Run(NOTHING, before), O.Run(O.NOTHING, Schedule(before)), c);
    }
  }

  // ----- what every sequence of calls keeps -------------------------------------------------------------------------

  predicate HasIntent(log: seq<Line>, send: Send) {
    0 < send.at <= |log| && log[send.at - 1] == Entry(send.co, send.step, Started)
  }

  lemma EarlierIdsSent(calls: seq<Call>, p: nat, q: nat)
    requires var s := Run(NOTHING, calls);
             && p < q < |s.sends| && s.sends[p].co == s.sends[q].co && s.sends[p].step.Ids?
    ensures !Run(NOTHING, calls).sends[q].step.Ids?
  {
    var t := O.Run(O.NOTHING, Schedule(calls));
    ScheduleMatches(calls);
    SequentialWrites.OrderlyLook(t, p, q);
    if t.sends[q].step.Ids? { O.IdsTwiceOnlyByOverlap(Schedule(calls), t.sends[p].co, p, q); }
  }

  /**
    Over any sequence of confirmations and automatic follow-ups, stopped anywhere, with appends and reads failing in any
    way: the ids write of a CO is sent at most once.
  */
  lemma IdsSentOnce(calls: seq<Call>, p: nat, q: nat)
    requires var s := Run(NOTHING, calls);
             && p < |s.sends| && q < |s.sends| && s.sends[p].co == s.sends[q].co
             && s.sends[p].step.Ids? && s.sends[q].step.Ids?
    ensures p == q
  {
    if p < q { EarlierIdsSent(calls, p, q); }
    if q < p { EarlierIdsSent(calls, q, p); }
  }

  /** The call sent the ids of this CO, and Salesforce accepted them and showed them in the row read afterwards. */
  predicate Confirmed(calls: seq<Call>, i: nat, co: string) {
    i < |calls| && calls[i].co == co && calls[i].authorised && calls[i].idsAttempt.reply == Accepted(true)
    && IdsAnswerOf(Run(NOTHING, calls[..i]).log, calls[i]).Sent?
  }

  /** A verified ids line that a guarded write adds is its own, and earned. */
  lemma GuardedVerified(s: State, co: string, step: WriteStep, shown: bool, a: Attempt, k: nat, of: string)
    ensures s.log <= Guarded(s, co, step, shown, a).log
    ensures |s.log| <= k < |Guarded(s, co, step, shown, a).log|
            && Guarded(s, co, step, shown, a).log[k] == Entry(of, Ids, Verified) ==>
      of == co && step.Ids? && a.reply == Accepted(true)
  {
  }

  lemma NewVerifiedLine(s: State, c: Call, k: nat, co: string)
    requires |s.log| <= k < |Followed(s, c).log| && Followed(s, c).log[k] == Entry(co, Ids, Verified)
    ensures c.co == co && c.authorised && IdsAnswerOf(s.log, c).Sent? && c.idsAttempt.reply == Accepted(true)
  {
    var u := AfterIds(s, c);
    var shown := IdsAnswerOf(s.log, c).AlreadyPresent?;
    GuardedVerified(s, c.co, Ids, false, c.idsAttempt, k, co);
    GuardedVerified(u, c.co, Stage, shown, c.stageAttempt, k, co);
  }

  lemma FollowedGrows(s: State, c: Call)
    ensures s.log <= Followed(s, c).log
  {
    GuardedVerified(s, c.co, Ids, false, c.idsAttempt, 0, c.co);
    GuardedVerified(AfterIds(s, c), c.co, Stage, IdsAnswerOf(s.log, c).AlreadyPresent?, c.stageAttempt, 0, c.co);
  }

  lemma {:induction false} VerifiedLineIsConfirmed(calls: seq<Call>, k: nat, co: string)
    requires k < |Run(NOTHING, calls).log| && Run(NOTHING, calls).log[k] == Entry(co, Ids, Verified)
    ensures exists i: nat :: Confirmed(calls, i, co)
  {
    var before, c := calls[..|calls| - 1], calls[|calls| - 1];
    var s := Run(NOTHING, before);
    FollowedGrows(s, c);
    if k < |s.log| {
      VerifiedLineIsConfirmed(before, k, co);
      var i: nat :| Confirmed(before, i, co);
      assert calls[..i] == before[..i];
      assert Confirmed(calls, i, co);
    } else {
      NewVerifiedLine(s, c, k, co);
      assert Confirmed(calls, |calls| - 1, co);
    }
  }

  /**
    A stage write is sent only after its own intent line, and only when the row showed the ids, or an earlier call had
    written them and read them back: never on the strength of an accepted command alone.
  */
  lemma StageOnlyAfterIds(calls: seq<Call>, p: nat)
    requires var s := Run(NOTHING, calls); p < |s.sends| && s.sends[p].step.Stage?
    ensures var s := Run(NOTHING, calls);
            var send := s.sends[p];
            HasIntent(s.log, send)
            && (send.shown || ((exists k :: 0 <= k < send.at && s.log[k] == Entry(send.co, Ids, Verified))
                               && exists i: nat :: Confirmed(calls, i, send.co)))
  {
    var t := O.Run(O.NOTHING, Schedule(calls));
    ScheduleMatches(calls);
    O.SendsHaveOwnIntents(Schedule(calls), p, p);
    O.StageAfterIds(Schedule(calls), p);
    var send := t.sends[p];
    if !send.shown {
      var k :| 0 <= k < O.LookOfSend(t, send) && t.log[k] == Entry(send.co, Ids, Verified);
      VerifiedLineIsConfirmed(calls, k, send.co);
    }
  }

  /** The newest stage line of the CO before this send's intent is a verified one. */
  predicate FollowsVerified(s: State, q: nat) {
    q < |s.sends| && HasIntent(s.log, s.sends[q])
      && Newest(s.log[..s.sends[q].at - 1], s.sends[q].co, Stage) == Some(Verified)
  }

  lemma RepeatsFollow(s: State, events: seq<O.Event>, p: nat, q: nat)
    requires Matches(s, O.Run(O.NOTHING, events)) && p < q < |s.sends| && s.sends[p].co == s.sends[q].co
    requires s.sends[p].step.Stage? && s.sends[q].step.Stage?
    ensures FollowsVerified(s, q)
  {
    SequentialWrites.OrderlyLook(O.Run(O.NOTHING, events), p, q);
    O.SendsHaveOwnIntents(events, q, q);
    O.StageTwiceOnlyByOverlap(events, s.sends[p].co, p, q);
  }

  /** A second stage write follows only a verified one: a started, rejected or uncertain one is never repeated. */
  lemma OnlyVerifiedStageRepeats(calls: seq<Call>, p: nat, q: nat)
    requires var s := Run(NOTHING, calls);
             && p < q < |s.sends| && s.sends[p].co == s.sends[q].co && s.sends[p].step.Stage? && s.sends[q].step.Stage?
    ensures FollowsVerified(Run(NOTHING, calls), q)
  {
    ScheduleMatches(calls);
    RepeatsFollow(Run(NOTHING, calls), Schedule(calls), p, q);
  }

  // ----- what one call sends ----------------------------------------------------------------------------------------

  /** A look that stands in the way of nothing: something is left to do, and nothing of it is blocked or on record. */
  predicate ClearLook(log: seq<Line>, co: string, look: Look) {
    && look.ok && !look.ids.Blocked? && !look.stage.Blocked? && !(look.ids.Present? && look.stage.Present?)
    && (look.ids.Ready? ==> O.GateOpen(log, co, Ids, look.idsReadable))
    && (look.stage.Ready? ==> O.GateOpen(log, co, Stage, look.stageReadable))
  }

  /** The ids are written: both looks are clear and agree, and the second shows them missing. */
  predicate IdsGo(log: seq<Line>, c: Call) {
    ClearLook(log, c.co, c.again) && c.same && c.again.ids.Ready? && c.idsArgvOk
  }

  /** The second look shows the ids, with the stage in place or still to be written. */
  predicate IdsShown(log: seq<Line>, c: Call) {
    c.again.ok && c.again.ids.Present?
    && (c.again.stage.Present? || (ClearLook(log, c.co, c.again) && c.same))
  }

  predicate IdsConfirmedNow(log: seq<Line>, c: Call) {
    IdsGo(log, c) && c.idsAttempt.intent.Written? && c.idsAttempt.stop.Never? && c.idsAttempt.outcome.Written?
    && c.idsAttempt.reply == Accepted(true)
  }

  /**
    One whole call: nothing without authority and a clear first look; then the ids exactly when they go; then the stage
    exactly when the ids show or were just confirmed and its own gate, read again, and plan allow it.
  */
  lemma FollowedExactly(s: State, c: Call)
    ensures var log := s.log;
            var after := if IdsGo(log, c) then Guarded(s, c.co, Ids, false, c.idsAttempt) else s;
            Followed(s, c) ==
              if !c.authorised || !ClearLook(log, c.co, c.first) then s
              else if (IdsShown(log, c) || IdsConfirmedNow(log, c))
                && O.GateOpen(after.log, c.co, Stage, c.stageReadable)
                      && c.stagePlan.Ready? && c.stageArgvOk
              then Guarded(after, c.co, Stage, IdsShown(log, c), c.stageAttempt)
              else after
  {
    assert Blocker(s.log, c.co, c.first).Open? <==> ClearLook(s.log, c.co, c.first);
    assert Blocker(s.log, c.co, c.again).Open? <==> ClearLook(s.log, c.co, c.again);
    AnswersExactly(s.log, c);
  }

  lemma AnswersExactly(log: seq<Line>, c: Call)
    ensures IdsAnswerOf(log, c).Sent? <==> IdsGo(log, c)
    ensures IdsAnswerOf(log, c).AlreadyPresent? <==> IdsShown(log, c)
    ensures IdsAnswerOf(log, c) == Sent(Told.Told(Verified)) <==> IdsConfirmedNow(log, c)
  {
  }
}
