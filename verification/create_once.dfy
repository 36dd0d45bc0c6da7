/**
  One click per CO. Nothing ties the record history and the approval file together, yet over every interleaving two
  attempts of one CO both really click Confirm only if one of them consumed an approval that a later one had overtaken.
*/
module CreateOnce {
  import opened Wrappers
  import opened Approvals
  import opened CreateGate
  import opened History
  import opened CreateRun
  import opened CreateWorld
  import ApprovalLaws

  // ----- the parts of the invariant ---------------------------------------------------------------------------------

  predicate Before(order: seq<string>, r: string, s: string) {
    exists i, j :: 0 <= i < j < |order| && order[i] == r && order[j] == s
  }

  /** Approvals are listed as issued, and whatever another one was issued after is no longer live. */
  ghost predicate OnlyLastIsLive(m: Records, order: seq<string>, clock: int) {
    && (forall key :: key in m <==> key in order)
    && (forall i, j :: 0 <= i < j < |order| ==> order[i] != order[j])
    && (forall i :: 0 <= i < |order| - 1 ==> !LiveAt(m[order[i]], clock))
  }

  predicate DidIntend(trace: seq<Effect>) {
    exists i :: 0 <= i < |trace| && trace[i].WroteIntent? && trace[i].written
  }

  function CoOf(attempts: Attempts, id: nat): string
    requires id in attempts
  {
    attempts[id].q.co
  }

  /** How often the records `h` show the attempt's own approval and revision as started. */
  function StartsOf(attempts: Attempts, id: nat, h: seq<Entry>): nat
    requires id in attempts
  {
    Started(h, AttemptKey(attempts[id].q))
  }

  predicate RecordFine(a: Attempt, h: seq<Entry>) {
    && a.prior <= h
    && (DidIntend(a.trace) ==> Started(h, AttemptKey(a.q)) >= 1)
    && (FilledForm in a.trace ==> !PriorAttemptNeedsReview(a.prior, ReviewCleared(a.prior)))
  }

  /** What the loaded records and the current ones know of each attempt. */
  ghost predicate Recorded(attempts: Attempts, histories: Histories) {
    forall id :: id in attempts ==> RecordFine(attempts[id], HistoryOf(histories, CoOf(attempts, id)))
  }

  /** Some attempt with this approval clicked nothing at all. */
  ghost predicate Untouching(attempts: Attempts, ref: string) {
    exists id :: id in attempts && RefOf(attempts, id) == ref && ClickedConfirm(NotClickedAtAll) in attempts[id].trace
  }

  /** A not-clicked refusal on record comes from an attempt with that approval whose click reached nothing. */
  ghost predicate RefusalsEarned(attempts: Attempts, histories: Histories) {
    forall co, ref, revision: Option<string> ::
      NotClicked(HistoryOf(histories, co), (Some(ref), revision)) > 0 ==> Untouching(attempts, ref)
  }

  /** Two attempts of one CO: `i` used its approval, and the approval of `j` was issued after that one. */
  predicate Follows(attempts: Attempts, order: seq<string>, i: nat, j: nat) {
    Users(attempts, i) && j in attempts && CoOf(attempts, i) == CoOf(attempts, j)
    && Before(order, RefOf(attempts, i), RefOf(attempts, j))
  }

  /** Attempts that consumed their approval when the named one had already been issued after it. */
  type Late = set<(nat, string)>

  /**
    An attempt whose approval was issued after another one was used has that use's intent in its loaded records, unless
    that use came after its approval was issued.
  */
  ghost predicate LaterOnesKnow(attempts: Attempts, order: seq<string>, late: Late) {
    forall i: nat, j: nat :: Follows(attempts, order, i, j) ==>
      StartsOf(attempts, i, attempts[j].prior) >= 1 || (i, RefOf(attempts, j)) in late
  }

  ghost predicate Settled(w: World, late: Late) {
    && OnlyLastIsLive(w.approvals, w.order, w.clock)
    && Recorded(w.attempts, w.histories)
    && RefusalsEarned(w.attempts, w.histories)
    && LaterOnesKnow(w.attempts, w.order, late)
  }

  predicate ConsumesNow(gate: Gate, w: World, e: Event) {
    e.Act? && e.effect.ConsumedApproval? && e.effect.answer.ConsumeDone?
    && e.id in w.attempts && MayAct(gate, w, w.attempts[e.id], e.effect)
  }

  /** The approvals that had overtaken the one consumed by this event, if it is a successful consume. */
  function OvertakenBy(gate: Gate, w: World, e: Event): Late {
    if ConsumesNow(gate, w, e)
    then set s | s in w.order && Before(w.order, RefOf(w.attempts, e.id), s) :: (e.id, s)
    else {}
  }

  function Overtaken(gate: Gate, w: World, events: seq<Event>): Late
    decreases |events|
  {
    if events == [] then {}
    else OvertakenBy(gate, w, events[0]) + Overtaken(gate, Step(gate, w, events[0]), events[1..])
  }

  /** The consume, if this event is a successful one, happens while its approval is unexpired by the world's clock. */
  predicate TimelyStep(gate: Gate, w: World, e: Event) {
    ConsumesNow(gate, w, e) ==>
      RefOf(w.attempts, e.id) in w.approvals && LiveAt(w.approvals[RefOf(w.attempts, e.id)], w.clock)
  }

  predicate Timely(gate: Gate, w: World, events: seq<Event>)
    decreases |events|
  {
    events == [] || (TimelyStep(gate, w, events[0]) && Timely(gate, Step(gate, w, events[0]), events[1..]))
  }

  // ----- small facts ------------------------------------------------------------------------------------------------

  lemma {:induction false} CountsMonotone(g: seq<Entry>, h: seq<Entry>, k: Key)
    requires g <= h
    ensures Started(g, k) <= Started(h, k) && NotClicked(g, k) <= NotClicked(h, k)
    decreases |h|
  {
    if |g| < |h| {
      assert g <= h[..|h| - 1];
      CountsMonotone(g, h[..|h| - 1], k);
    } else {
      assert g == h;
    }
  }

  lemma DidIntendGrows(trace: seq<Effect>, e: Effect)
    ensures DidIntend(trace + [e]) <==> DidIntend(trace) || (e.WroteIntent? && e.written)
  {
    assert (trace + [e])[|trace|] == e;
    if i :| 0 <= i < |trace| && trace[i].WroteIntent? && trace[i].written {
      assert (trace + [e])[i] == trace[i];
    }
  }

  lemma {:induction false} ConsumedMeansIntended(trace: seq<Effect>)
    requires Follow(trace).Some? && DidConsume(trace)
    ensures DidIntend(trace)
  {
    var before, e := trace[..|trace| - 1], trace[|trace| - 1];
    assert trace == before + [e];
    DidConsumeGrows(before, e);
    DidIntendGrows(before, e);
    if DidConsume(before) {
      ConsumedMeansIntended(before);
    } else {
      LastGate(before, Follow(before).value.inputs);
      var q := Follow(before).value.inputs;
      var i :| 0 <= i < |before| && before[i] == WroteIntent(IntentEntry(q), true);
      assert before[i].WroteIntent?;
    }
  }

  lemma UntouchedMeansNotClicked(trace: seq<Effect>)
    requires Follow(trace) == Some(Untouched)
    ensures ClickedConfirm(NotClickedAtAll) in trace
  {
    assert trace[|trace| - 1] == ClickedConfirm(NotClickedAtAll);
  }

  // ----- one more record --------------------------------------------------------------------------------------------

  lemma LongerStaysFine(a: Attempt, h: seq<Entry>, e: Entry)
    requires RecordFine(a, h)
    ensures RecordFine(a, h + [e])
  {
    CountsGrow(h, e, AttemptKey(a.q));
  }

  lemma AppendKeepsRecorded(attempts: Attempts, histories: Histories, co: string, e: Entry)
    requires Recorded(attempts, histories)
    ensures Recorded(attempts, Appended(histories, co, e))
  {
    forall id | id in attempts
      ensures RecordFine(attempts[id], HistoryOf(Appended(histories, co, e), CoOf(attempts, id)))
    {
      LongerStaysFine(attempts[id], HistoryOf(histories, CoOf(attempts, id)), e);
    }
  }

  lemma AppendKeepsRefusals(attempts: Attempts, histories: Histories, co: string, e: Entry)
    requires RefusalsEarned(attempts, histories)
    requires IsNotClicked(e) ==> e.ref.Some? && Untouching(attempts, e.ref.value)
    ensures RefusalsEarned(attempts, Appended(histories, co, e))
  {
    var longer := Appended(histories, co, e);
    forall c, ref, revision: Option<string> | NotClicked(HistoryOf(longer, c), (Some(ref), revision)) > 0
      ensures Untouching(attempts, ref)
    {
      CountsGrow(HistoryOf(histories, co), e, (Some(ref), revision));
      assert c != co ==> HistoryOf(longer, c) == HistoryOf(histories, c);
    }
  }

  lemma AppendKeepsSettled(w: World, co: string, e: Entry, late: Late)
    requires Settled(w, late)
    requires IsNotClicked(e) ==> e.ref.Some? && Untouching(w.attempts, e.ref.value)
    ensures Settled(Append(w, co, e), late)
  {
    AppendKeepsRecorded(w.attempts, w.histories, co, e);
    AppendKeepsRefusals(w.attempts, w.histories, co, e);
  }

  // ----- one more effect of one attempt ------------------------------------------------------------------------------

  lemma MoveKeepsRecorded(attempts: Attempts, histories: Histories, id: nat, e: Effect)
    requires Recorded(attempts, histories) && id in attempts
    requires e.WroteIntent? && e.written ==> StartsOf(attempts, id, HistoryOf(histories, CoOf(attempts, id))) >= 1
    requires e.FilledForm? ==> !PriorAttemptNeedsReview(attempts[id].prior, ReviewCleared(attempts[id].prior))
    ensures Recorded(Moved(attempts, id, e), histories)
  {
    DidIntendGrows(attempts[id].trace, e);
    assert RecordFine(attempts[id], HistoryOf(histories, CoOf(attempts, id)));
    assert RecordFine(Moved(attempts, id, e)[id], HistoryOf(histories, CoOf(attempts, id)));
  }

  lemma MoveKeepsRefusals(attempts: Attempts, histories: Histories, id: nat, e: Effect)
    requires RefusalsEarned(attempts, histories) && id in attempts
    ensures RefusalsEarned(Moved(attempts, id, e), histories)
  {
    forall ref | Untouching(attempts, ref) ensures Untouching(Moved(attempts, id, e), ref) {
      var n :| n in attempts && RefOf(attempts, n) == ref && ClickedConfirm(NotClickedAtAll) in attempts[n].trace;
      assert ClickedConfirm(NotClickedAtAll) in Moved(attempts, id, e)[n].trace;
    }
  }

  lemma SameFollow(attempts: Attempts, others: Attempts, order: seq<string>, i: nat, j: nat)
    requires Follows(others, order, i, j) && Users(attempts, i) && j in attempts
    requires attempts[i].q == others[i].q && attempts[j].q == others[j].q
    ensures Follows(attempts, order, i, j)
  {
    assert RefOf(attempts, i) == RefOf(others, i) && RefOf(attempts, j) == RefOf(others, j);
    assert CoOf(attempts, i) == CoOf(others, i) && CoOf(attempts, j) == CoOf(others, j);
  }

  lemma MoveKeepsLater(attempts: Attempts, order: seq<string>, id: nat, e: Effect, late: Late)
    requires LaterOnesKnow(attempts, order, late) && id in attempts
    requires e.ConsumedApproval? && e.answer.ConsumeDone? ==>
      forall s :: Before(order, RefOf(attempts, id), s) ==> (id, s) in late
    ensures LaterOnesKnow(Moved(attempts, id, e), order, late)
  {
    var moved := Moved(attempts, id, e);
    forall i: nat, j: nat | Follows(moved, order, i, j)
      ensures StartsOf(moved, i, moved[j].prior) >= 1 || (i, RefOf(moved, j)) in late
    {
      MovedUsers(attempts, id, e, i);
      assert RefOf(moved, i) == RefOf(attempts, i) && RefOf(moved, j) == RefOf(attempts, j);
      if Users(attempts, i) { SameFollow(attempts, moved, order, i, j); }
    }
  }

  lemma MoveKeepsSettled(w: World, id: nat, e: Effect, late: Late)
    requires Settled(w, late) && id in w.attempts
    requires e.WroteIntent? && e.written ==> StartsOf(w.attempts, id, HistoryOf(w.histories, CoOf(w.attempts, id))) >= 1
    requires e.FilledForm? ==> !PriorAttemptNeedsReview(w.attempts[id].prior, ReviewCleared(w.attempts[id].prior))
    requires e.ConsumedApproval? && e.answer.ConsumeDone? ==>
      forall s :: Before(w.order, RefOf(w.attempts, id), s) ==> (id, s) in late
    ensures Settled(w.(attempts := Moved(w.attempts, id, e)), late)
  {
    MoveKeepsRecorded(w.attempts, w.histories, id, e);
    MoveKeepsRefusals(w.attempts, w.histories, id, e);
    MoveKeepsLater(w.attempts, w.order, id, e, late);
  }

  // ----- each kind of step -------------------------------------------------------------------------------------------

  lemma IssueKeepsOrder(m: Records, order: seq<string>, q: IssueRequest, now: int, clock: int)
    requires OnlyLastIsLive(m, order, clock) && CanIssue(m, q, now) && now <= clock
    ensures OnlyLastIsLive(Issued(m, q, now), order + [q.ref], clock)
  {
    var n := Issued(m, q, now);
    assert n.Keys == m.Keys + {q.ref};
    forall key | key in m ensures !LiveAt(n[key], clock) {}
  }

  lemma BeforeInLonger(order: seq<string>, last: string, r: string, s: string)
    requires Before(order + [last], r, s) && s in order && last !in order
    ensures Before(order, r, s)
  {
    var i, j :| 0 <= i < j < |order + [last]| && (order + [last])[i] == r && (order + [last])[j] == s;
    assert j < |order| && order[i] == r && order[j] == s;
  }

  lemma IssueKeepsLater(attempts: Attempts, order: seq<string>, last: string, late: Late)
    requires LaterOnesKnow(attempts, order, late) && last !in order
    requires forall id :: id in attempts ==> RefOf(attempts, id) in order
    ensures LaterOnesKnow(attempts, order + [last], late)
  {
    forall i, j | i in attempts && j in attempts && Before(order + [last], RefOf(attempts, i), RefOf(attempts, j))
      ensures Before(order, RefOf(attempts, i), RefOf(attempts, j))
    {
      BeforeInLonger(order, last, RefOf(attempts, i), RefOf(attempts, j));
    }
  }

  lemma OwnerKeepsSettled(gate: Gate, w: World, op: Operation, late: Late)
    requires Fair(gate, w) && Settled(w, late) && !op.Consume?
    requires ApprovalLaws.TimeOf(op) <= w.clock && Apply(w.approvals, op).Some?
    ensures var order := if op.Issue? then w.order + [op.request.ref] else w.order;
            Settled(w.(approvals := Apply(w.approvals, op).value, order := order), late)
  {
    if op.Issue? {
      IssueKeepsOrder(w.approvals, w.order, op.request, op.now, w.clock);
      IssueKeepsLater(w.attempts, w.order, op.request.ref, late);
    }
  }

  /** The later attempt of a CO loads its records after the earlier one wrote its intent. */
  lemma LaunchKeepsLater(gate: Gate, attempts: Attempts, histories: Histories, order: seq<string>, id: nat, q: Inputs,
                         late: Late)
    requires InOrder(gate, attempts) && Recorded(attempts, histories) && LaterOnesKnow(attempts, order, late)
    requires id !in attempts
    ensures LaterOnesKnow(attempts[id := Attempt(q, HistoryOf(histories, q.co), [], true)], order, late)
  {
    var more := attempts[id := Attempt(q, HistoryOf(histories, q.co), [], true)];
    forall i: nat, j: nat | Follows(more, order, i, j)
      ensures StartsOf(more, i, more[j].prior) >= 1 || (i, RefOf(more, j)) in late
    {
      assert Users(attempts, i);
      if j == id {
        ConsumedMeansIntended(attempts[i].trace);
        assert RecordFine(attempts[i], HistoryOf(histories, CoOf(attempts, i)));
      } else {
        SameFollow(attempts, more, order, i, j);
      }
    }
  }

  /** An attempt that joins with nothing done, or one that goes on as it was. */
  lemma ReplacedKeepsRecords(attempts: Attempts, histories: Histories, id: nat, a: Attempt)
    requires Recorded(attempts, histories) && RefusalsEarned(attempts, histories)
    requires if id in attempts then a == attempts[id].(alive := a.alive)
             else a.trace == [] && a.prior == HistoryOf(histories, a.q.co)
    ensures Recorded(attempts[id := a], histories) && RefusalsEarned(attempts[id := a], histories)
  {
    if id in attempts { assert RecordFine(attempts[id], HistoryOf(histories, CoOf(attempts, id))); }
    forall ref | Untouching(attempts, ref) ensures Untouching(attempts[id := a], ref) {
      var n :| n in attempts && RefOf(attempts, n) == ref && ClickedConfirm(NotClickedAtAll) in attempts[n].trace;
      assert ClickedConfirm(NotClickedAtAll) in attempts[id := a][n].trace;
    }
  }

  lemma CrashKeepsLater(attempts: Attempts, order: seq<string>, id: nat, late: Late)
    requires LaterOnesKnow(attempts, order, late) && id in attempts
    ensures LaterOnesKnow(attempts[id := attempts[id].(alive := false)], order, late)
  {
    var crashed := attempts[id := attempts[id].(alive := false)];
    forall i: nat, j: nat | Follows(crashed, order, i, j)
      ensures StartsOf(crashed, i, crashed[j].prior) >= 1 || (i, RefOf(crashed, j)) in late
    {
      SameFollow(attempts, crashed, order, i, j);
    }
  }

  lemma IntentKeepsSettled(gate: Gate, w: World, id: nat, e: Effect, late: Late)
    requires InOrder(gate, w.attempts) && Settled(w, late) && id in w.attempts && MayAct(gate, w, w.attempts[id], e)
    requires e.WroteIntent?
    ensures Settled(Append(w, w.attempts[id].q.co, e.entry).(attempts := Moved(w.attempts, id, e)), late)
  {
    var a := w.attempts[id];
    FollowStep(a.trace, e);
    OwnInputs(a.trace, a.q, gate);
    AppendKeepsSettled(w, a.q.co, e.entry, late);
    CountsGrow(HistoryOf(w.histories, a.q.co), e.entry, AttemptKey(a.q));
    MoveKeepsSettled(Append(w, a.q.co, e.entry), id, e, late);
  }

  /** The final record of the click's own refusal is written only after a click that reached nothing. */
  lemma NotClickedIsEarned(gate: Gate, w: World, id: nat, e: Effect)
    requires id in w.attempts && MayAct(gate, w, w.attempts[id], e) && Follow(w.attempts[id].trace).Some?
    requires e.WroteFinal? && IsNotClicked(FinalEntry(w.attempts[id].q, e.outcome, e.reason))
    ensures Untouching(w.attempts, RefOf(w.attempts, id))
  {
    FollowStep(w.attempts[id].trace, e);
    UntouchedMeansNotClicked(w.attempts[id].trace);
  }

  lemma FinalKeepsSettled(gate: Gate, w: World, id: nat, e: Effect, late: Late)
    requires InOrder(gate, w.attempts) && Settled(w, late) && id in w.attempts && MayAct(gate, w, w.attempts[id], e)
    requires e.WroteFinal?
    ensures var q := w.attempts[id].q;
            Settled(Append(w, q.co, FinalEntry(q, e.outcome, e.reason)).(attempts := Moved(w.attempts, id, e)), late)
  {
    var a := w.attempts[id];
    var entry := FinalEntry(a.q, e.outcome, e.reason);
    if IsNotClicked(entry) { NotClickedIsEarned(gate, w, id, e); }
    AppendKeepsSettled(w, a.q.co, entry, late);
    MoveKeepsSettled(Append(w, a.q.co, entry), id, e, late);
  }

  lemma MoreLate(attempts: Attempts, order: seq<string>, late: Late, more: Late)
    requires LaterOnesKnow(attempts, order, late)
    ensures LaterOnesKnow(attempts, order, late + more)
  {
  }

  lemma BeforeIsListed(order: seq<string>, r: string, s: string)
    requires Before(order, r, s)
    ensures s in order
  {
  }

  /** Whatever overtook the consumed approval is on the list afterwards. */
  lemma ConsumeListsOvertaking(gate: Gate, w: World, id: nat, e: Effect, landed: bool, s: string)
    requires ConsumesNow(gate, w, Act(id, e, landed)) && Before(w.order, RefOf(w.attempts, id), s)
    ensures (id, s) in OvertakenBy(gate, w, Act(id, e, landed))
  {
    BeforeIsListed(w.order, RefOf(w.attempts, id), s);
  }

  lemma ConsumeKeepsSettled(gate: Gate, w: World, id: nat, e: Effect, landed: bool, late: Late)
    requires Fair(gate, w) && Settled(w, late) && id in w.attempts && MayAct(gate, w, w.attempts[id], e)
    requires e.ConsumedApproval? && Reaches(w.approvals, e, landed)
    ensures Settled(w.(approvals := Apply(w.approvals, e.op).GetOr(w.approvals), attempts := Moved(w.attempts, id, e)),
                    late + OvertakenBy(gate, w, Act(id, e, landed)))
  {
    var more := late + OvertakenBy(gate, w, Act(id, e, landed));
    if e.answer.ConsumeDone? {
      ConsumeOfOwnApproval(gate, w, id, e);
      forall s | Before(w.order, RefOf(w.attempts, id), s) ensures (id, s) in more {
        ConsumeListsOvertaking(gate, w, id, e, landed, s);
      }
    }
    ConsumedApplies(w.approvals, e.op);
    ApplyKeepsEnds(w.approvals, e.op);
    MoreLate(w.attempts, w.order, late, OvertakenBy(gate, w, Act(id, e, landed)));
    MoveKeepsSettled(w.(approvals := Apply(w.approvals, e.op).value), id, e, more);
  }

  lemma PerformShape(w: World, id: nat, e: Effect, landed: bool)
    requires id in w.attempts
    ensures e.WroteIntent? && Reaches(w.approvals, e, landed) ==>
      Perform(w, id, w.attempts[id], e, landed)
      == Append(w, w.attempts[id].q.co, e.entry).(attempts := Moved(w.attempts, id, e))
    ensures e.WroteFinal? && Reaches(w.approvals, e, landed) ==>
      var q := w.attempts[id].q;
      Perform(w, id, w.attempts[id], e, landed)
      == Append(w, q.co, FinalEntry(q, e.outcome, e.reason)).(attempts := Moved(w.attempts, id, e))
    ensures e.ConsumedApproval? && Reaches(w.approvals, e, landed) ==>
      Perform(w, id, w.attempts[id], e, landed)
      == w.(approvals := Apply(w.approvals, e.op).GetOr(w.approvals), attempts := Moved(w.attempts, id, e))
    ensures !Reaches(w.approvals, e, landed) ==>
      Perform(w, id, w.attempts[id], e, landed) == w.(attempts := Moved(w.attempts, id, e))
  {
  }

  /** `v` is what the effect leaves. */
  lemma ActKeepsSettled(gate: Gate, w: World, id: nat, e: Effect, landed: bool, v: World, late: Late)
    requires Fair(gate, w) && Settled(w, late) && id in w.attempts && MayAct(gate, w, w.attempts[id], e)
    requires v == Perform(w, id, w.attempts[id], e, landed)
    ensures Settled(v, late + OvertakenBy(gate, w, Act(id, e, landed)))
  {
    PerformShape(w, id, e, landed);
    var more := late + OvertakenBy(gate, w, Act(id, e, landed));
    MoreLate(w.attempts, w.order, late, OvertakenBy(gate, w, Act(id, e, landed)));
    if !Reaches(w.approvals, e, landed) {
      UnreachedMoves(gate, w, id, e, landed, more);
    } else {
      match e
      case WroteIntent(_, _) => IntentKeepsSettled(gate, w, id, e, more);
      case WroteFinal(_, _, _) => FinalKeepsSettled(gate, w, id, e, more);
      case ConsumedApproval(_, _) => ConsumeKeepsSettled(gate, w, id, e, landed, late);
    }
  }

  lemma UnreachedMoves(gate: Gate, w: World, id: nat, e: Effect, landed: bool, late: Late)
    requires Settled(w, late) && id in w.attempts && MayAct(gate, w, w.attempts[id], e)
    requires !Reaches(w.approvals, e, landed)
    ensures Settled(w.(attempts := Moved(w.attempts, id, e)), late)
  {
    MoveKeepsSettled(w, id, e, late);
  }

  /** Every event of the world keeps it settled, with what it let overtake added. */
  lemma StepKeepsSettled(gate: Gate, w: World, e: Event, late: Late)
    requires Fair(gate, w) && Settled(w, late)
    ensures Settled(Step(gate, w, e), late + OvertakenBy(gate, w, e))
  {
    var v := Step(gate, w, e);
    MoreLate(w.attempts, w.order, late, OvertakenBy(gate, w, e));
    if v != w {
      match e
      case Tick(_) =>
      case OwnerActs(op) => OwnerKeepsSettled(gate, w, op, late);
      case OwnerReviews(co, key, _) =>
        AppendKeepsSettled(w, co, Entry(key.0, key.1, OwnerCleared, OWNER_REVIEWED, None), late);
      case Launch(id, q) =>
        LaunchKeepsLater(gate, w.attempts, w.histories, w.order, id, q, late);
        ReplacedKeepsRecords(w.attempts, w.histories, id, v.attempts[id]);
      case Crash(id) =>
        CrashKeepsLater(w.attempts, w.order, id, late);
        ReplacedKeepsRecords(w.attempts, w.histories, id, v.attempts[id]);
      case Act(id, effect, landed) => ActKeepsSettled(gate, w, id, effect, landed, v, late);
    }
  }

  lemma {:induction false} RunKeepsSettled(gate: Gate, w: World, events: seq<Event>, late: Late)
    requires Fair(gate, w) && Settled(w, late)
    ensures Fair(gate, After(gate, w, events)) && Settled(After(gate, w, events), late + Overtaken(gate, w, events))
    decreases |events|
  {
    if events != [] {
      var v, more := Step(gate, w, events[0]), OvertakenBy(gate, w, events[0]);
      StepKeepsFair(gate, w, events[0]);
      StepKeepsSettled(gate, w, events[0], late);
      RunKeepsSettled(gate, v, events[1..], late + more);
      assert late + more + Overtaken(gate, v, events[1..]) == late + Overtaken(gate, w, events);
    } else {
      assert late + {} == late;
    }
  }

  lemma LiveIsLast(m: Records, order: seq<string>, clock: int, ref: string, s: string)
    requires OnlyLastIsLive(m, order, clock) && ref in m && LiveAt(m[ref], clock)
    ensures !Before(order, ref, s)
  {
  }

  /** A consume that finds its approval unexpired is of the approval issued last, so nothing overtook it. */
  lemma {:induction false} TimelyMeansNotOvertaken(gate: Gate, w: World, events: seq<Event>, late: Late)
    requires Fair(gate, w) && Settled(w, late) && Timely(gate, w, events)
    ensures Overtaken(gate, w, events) == {}
    decreases |events|
  {
    if events != [] {
      var e := events[0];
      if ConsumesNow(gate, w, e) {
        var r := RefOf(w.attempts, e.id);
        forall s ensures !Before(w.order, r, s) { LiveIsLast(w.approvals, w.order, w.clock, r, s); }
      }
      StepKeepsFair(gate, w, e);
      StepKeepsSettled(gate, w, e, late);
      TimelyMeansNotOvertaken(gate, Step(gate, w, e), events[1..], late + OvertakenBy(gate, w, e));
    }
  }

  // ----- one real click per CO ---------------------------------------------------------------------------------------

  /** Records that do not block although a pair was started show that pair as not clicked. */
  lemma UnblockedMeansRefused(h: seq<Entry>, k: Key)
    requires !PriorAttemptNeedsReview(h, ReviewCleared(h)) && Started(h, k) >= 1
    ensures NotClicked(h, k) >= 1
  {
    StatusAgreesWithRun(h);
    StatusBlocksWhenWaiting(h);
    StartedEntry(h, k);
    var e :| e in h && e.outcome.AttemptStarted? && KeyOf(e) == k;
    assert !StillCounts(h, e);
  }

  lemma SoleUser(w: World, i: nat, n: nat)
    requires OneUse(w.attempts, w.approvals) && Users(w.attempts, i) && Users(w.attempts, n)
    requires RefOf(w.attempts, i) == RefOf(w.attempts, n)
    ensures i == n
  {
  }

  /**
    Were the approval of `j` issued after the used one of `i` but not before that use, the click of `i` reached nothing.
  */
  lemma LaterFormMeansUntouched(gate: Gate, w: World, late: Late, i: nat, j: nat)
    requires Fair(gate, w) && Settled(w, late)
    requires Users(w.attempts, i) && j in w.attempts && FilledForm in w.attempts[j].trace
    requires CoOf(w.attempts, i) == CoOf(w.attempts, j) && Before(w.order, RefOf(w.attempts, i), RefOf(w.attempts, j))
    requires (i, RefOf(w.attempts, j)) !in late
    ensures ClickedConfirm(NotClickedAtAll) in w.attempts[i].trace
  {
    var a, b := w.attempts[i], w.attempts[j];
    var h := HistoryOf(w.histories, b.q.co);
    assert Follows(w.attempts, w.order, i, j) && StartsOf(w.attempts, i, b.prior) >= 1 && RecordFine(b, h);
    UnblockedMeansRefused(b.prior, AttemptKey(a.q));
    CountsMonotone(b.prior, h, AttemptKey(a.q));
    assert Untouching(w.attempts, a.q.approvalRef);
    var n :| n in w.attempts && RefOf(w.attempts, n) == a.q.approvalRef
      && ClickedConfirm(NotClickedAtAll) in w.attempts[n].trace;
    ClickCounted(w.attempts[n].trace, NotClickedAtAll);
    ClickedMeansConsumed(w.attempts[n].trace);
    SoleUser(w, i, n);
  }

  lemma RealClickWasNotNothing(trace: seq<Effect>)
    requires Follow(trace).Some? && ReallyClicked(trace)
    ensures ClickedConfirm(NotClickedAtAll) !in trace && DidConsume(trace) && FilledForm in trace
  {
    var c := if ClickedConfirm(Submitted) in trace then Submitted else Unsure;
    ClickCounted(trace, c);
    ClickedMeansConsumed(trace);
    if ClickedConfirm(NotClickedAtAll) in trace { OneAnswer(trace, c, NotClickedAtAll); }
  }

  lemma OneComesFirst(m: Records, order: seq<string>, clock: int, r: string, s: string)
    requires OnlyLastIsLive(m, order, clock) && r in m && s in m && r != s
    ensures Before(order, r, s) || Before(order, s, r)
  {
    var i :| 0 <= i < |order| && order[i] == r;
    var j :| 0 <= j < |order| && order[j] == s;
  }

  /** Two attempts of one CO whose clicks may both have created something. */
  predicate BothReallyClicked(w: World, i: nat, j: nat) {
    i in w.attempts && j in w.attempts && CoOf(w.attempts, i) == CoOf(w.attempts, j)
    && ReallyClicked(w.attempts[i].trace) && ReallyClicked(w.attempts[j].trace)
  }

  /**
    Over every interleaving, with crashes and raising calls anywhere, any gate, any answers of the page and any
    reviews by the owner: when two attempts of one CO both really clicked, they used different approvals, and the one
    with the earlier approval consumed it after the later one had been issued.
  */
  lemma TwoRealClicksMeanOvertaken(gate: Gate, events: seq<Event>, i: nat, j: nat)
    requires BothReallyClicked(After(gate, NOTHING, events), i, j) && i != j
    ensures var w := After(gate, NOTHING, events);
            var r, s, late := RefOf(w.attempts, i), RefOf(w.attempts, j), Overtaken(gate, NOTHING, events);
            (Before(w.order, r, s) && (i, s) in late) || (Before(w.order, s, r) && (j, r) in late)
  {
    var w := After(gate, NOTHING, events);
    var late := Overtaken(gate, NOTHING, events);
    RunKeepsSettled(gate, NOTHING, events, {});
    assert {} + late == late;
    RealClickWasNotNothing(w.attempts[i].trace);
    RealClickWasNotNothing(w.attempts[j].trace);
    var r, s := RefOf(w.attempts, i), RefOf(w.attempts, j);
    if r == s { SoleUser(w, i, j); }
    OneComesFirst(w.approvals, w.order, w.clock, r, s);
    if Before(w.order, r, s) && (i, s) !in late { LaterFormMeansUntouched(gate, w, late, i, j); }
    if Before(w.order, s, r) && (j, r) !in late { LaterFormMeansUntouched(gate, w, late, j, i); }
  }

  /** What the list says: at some event the attempt consumed, and the named approval had been issued after its own. */
  lemma {:induction false} OvertakenMeans(gate: Gate, w: World, events: seq<Event>, id: nat, s: string) returns (k: nat)
    requires (id, s) in Overtaken(gate, w, events)
    ensures k < |events|
    ensures var v := After(gate, w, events[..k]);
            ConsumesNow(gate, v, events[k]) && events[k].id == id && Before(v.order, RefOf(v.attempts, id), s)
    decreases |events|
  {
    if (id, s) in OvertakenBy(gate, w, events[0]) {
      k := 0;
    } else {
      var n := OvertakenMeans(gate, Step(gate, w, events[0]), events[1..], id, s);
      k := n + 1;
      assert events[..k][1..] == events[1..][..n];
    }
  }

  /** So when no consume came after a later issue, at most one attempt of a CO really clicks. */
  lemma OneRealClickPerCo(gate: Gate, events: seq<Event>, i: nat, j: nat)
    requires Overtaken(gate, NOTHING, events) == {} && BothReallyClicked(After(gate, NOTHING, events), i, j)
    ensures i == j
  {
    if i != j { TwoRealClicksMeanOvertaken(gate, events, i, j); }
  }

  /** In particular when every consume found its approval unexpired. */
  lemma TimelyConsumesClickOnce(gate: Gate, events: seq<Event>, i: nat, j: nat)
    requires Timely(gate, NOTHING, events) && BothReallyClicked(After(gate, NOTHING, events), i, j)
    ensures i == j
  {
    TimelyMeansNotOvertaken(gate, NOTHING, events, {});
    OneRealClickPerCo(gate, events, i, j);
  }
}
