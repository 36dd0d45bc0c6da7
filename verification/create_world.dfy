/**
  Any number of create attempts in any number of processes, interleaved step by step, over one approval file and one
  record history per CO, with the owner issuing, revoking and reviewing meanwhile. A process may stop at any step.
*/
module CreateWorld {
  import opened Wrappers
  import opened Approvals
  import opened CreateGate
  import opened History
  import opened CreateRun
  import ApprovalLaws

  /** One attempt: its inputs, the records it loaded when it was launched, and the effects it had so far. */
  datatype Attempt = Attempt(q: Inputs, prior: seq<Entry>, trace: seq<Effect>, alive: bool)

  type Histories = map<string, seq<Entry>>

  type Attempts = map<nat, Attempt>

  /** `order` lists the approval references in the order they were issued. */
  datatype World = World(clock: int, approvals: Records, order: seq<string>,
                         histories: Histories, attempts: Attempts)

  /**
    `landed`: a call that raised, or whose write was reported as failed, took effect nevertheless. An owner's operation
    carries a clock reading taken before it came to the file, and a review is decided on the first `look` records.
  */
  datatype Event =
    | Tick(now: int)
    | OwnerActs(op: Operation)
    | OwnerReviews(co: string, key: Key, look: nat)
    | Launch(id: nat, q: Inputs)
    | Act(id: nat, effect: Effect, landed: bool)
    | Crash(id: nat)

  const NOTHING := World(0, map[], [], map[], map[])

  function HistoryOf(histories: Histories, co: string): seq<Entry> {
    if co in histories then histories[co] else []
  }

  function Appended(histories: Histories, co: string, e: Entry): Histories {
    histories[co := HistoryOf(histories, co) + [e]]
  }

  function Append(w: World, co: string, e: Entry): World {
    w.(histories := Appended(w.histories, co, e))
  }

  function AttemptKey(q: Inputs): Key { (Some(q.approvalRef), Some(q.sourceRevision)) }

  /** The refusal code on record. Only the one code the review compares is spelled out; callables bring their own. */
  function CodeOf(reason: RunReason): string {
    match reason
    case ConfirmNotClicked => NOT_CLICKED
    case FormRefused(code) => code
    case DuplicateRefused(code) => code
    case Closed(Precheck(code)) => code
    case _ => ""
  }

  function FinalEntry(q: Inputs, outcome: Outcome, reason: RunReason): Entry {
    Entry(Some(q.approvalRef), Some(q.sourceRevision), outcome, CodeOf(reason), None)
  }

  /**
    What the world lets an attempt do next: the order of its own steps, the gate judged on the file as it is now with a
    clock reading that is not ahead, the loaded records judged before the form, and a consume that the file accepts.
    No callable refuses with the click's own code.
  */
  predicate MayAct(gate: Gate, w: World, a: Attempt, e: Effect) {
    && a.alive && Follow(a.trace + [e]).Some?
    && match e
       case Judged(inputs, facts, _) =>
         TrueVerdict(e, a.q, gate, false) && facts.approvals == Stored(w.approvals) && inputs.now <= w.clock
       case FilledForm => !PriorAttemptNeedsReview(a.prior, ReviewCleared(a.prior))
       case ConsumedApproval(op, answer) => answer.ConsumeDone? ==> Apply(w.approvals, op).Some?
       case WroteFinal(outcome, reason, _) =>
         !outcome.DryRunPassed? && (CodeOf(reason) == NOT_CLICKED ==> reason.ConfirmNotClicked?)
       case _ => true
  }

  /** The effect reached the file or the records, whatever the attempt was told. */
  predicate Reaches(m: Records, e: Effect, landed: bool) {
    match e
    case WroteIntent(_, written) => written || landed
    case ConsumedApproval(op, answer) =>
      answer.ConsumeDone? || (answer.ConsumeRaised? && landed && op.Consume? && Apply(m, op).Some?)
    case WroteFinal(_, _, written) => written || landed
    case _ => false
  }

  function Perform(w: World, id: nat, a: Attempt, e: Effect, landed: bool): World {
    var moved := w.(attempts := w.attempts[id := a.(trace := a.trace + [e])]);
    if !Reaches(w.approvals, e, landed) then moved
    else
      match e
      case WroteIntent(entry, _) => Append(moved, a.q.co, entry)
      case ConsumedApproval(op, _) => moved.(approvals := Apply(w.approvals, op).GetOr(w.approvals))
      case WroteFinal(outcome, reason, _) => Append(moved, a.q.co, FinalEntry(a.q, outcome, reason))
      case _ => moved
  }

  /** One event; one that is not possible now changes nothing. */
  function Step(gate: Gate, w: World, e: Event): World {
    match e
    case Tick(now) => if w.clock <= now then w.(clock := now) else w
    case OwnerActs(op) =>
      if op.Consume? || ApprovalLaws.TimeOf(op) > w.clock || Apply(w.approvals, op).None? then w
      else w.(approvals := Apply(w.approvals, op).value,
              order := if op.Issue? then w.order + [op.request.ref] else w.order)
    case OwnerReviews(co, key, look) =>
      if look <= |HistoryOf(w.histories, co)| && Clearable(HistoryOf(w.histories, co)[..look], key) then
        Append(w, co, Entry(key.0, key.1, OwnerCleared, OWNER_REVIEWED, None))
      else w
    case Launch(id, q) =>
      if id in w.attempts || q.approvalRef !in w.approvals then w
      else w.(attempts := w.attempts[id := Attempt(q, HistoryOf(w.histories, q.co), [], true)])
    case Act(id, effect, landed) =>
      if id in w.attempts && MayAct(gate, w, w.attempts[id], effect) then Perform(w, id, w.attempts[id], effect, landed)
      else w
    case Crash(id) =>
      if id in w.attempts then w.(attempts := w.attempts[id := w.attempts[id].(alive := false)]) else w
  }

  function After(gate: Gate, w: World, events: seq<Event>): World
    decreases |events|
  {
    if events == [] then w else After(gate, Step(gate, w, events[0]), events[1..])
  }

  // ----- one click per approval -------------------------------------------------------------------------------------

  /** The attempt consumed its approval. */
  predicate DidConsume(trace: seq<Effect>) {
    exists i :: 0 <= i < |trace| && trace[i].ConsumedApproval? && trace[i].answer.ConsumeDone?
  }

  /** A click that may have created something. */
  predicate ReallyClicked(trace: seq<Effect>) {
    ClickedConfirm(Submitted) in trace || ClickedConfirm(Unsure) in trace
  }

  lemma DidConsumeGrows(trace: seq<Effect>, e: Effect)
    ensures DidConsume(trace + [e]) <==> DidConsume(trace) || (e.ConsumedApproval? && e.answer.ConsumeDone?)
  {
    assert (trace + [e])[|trace|] == e;
    if i :| 0 <= i < |trace| && trace[i].ConsumedApproval? && trace[i].answer.ConsumeDone? {
      assert (trace + [e])[i] == trace[i];
    }
  }

  lemma ClickedMeansConsumed(trace: seq<Effect>)
    requires Follow(trace).Some? && Clicks(trace) >= 1
    ensures DidConsume(trace) && FilledForm in trace
  {
    EveryClickIsCovered(trace);
    FilledBefore(trace);
  }

  lemma {:induction false} ClickCounted(trace: seq<Effect>, c: Click)
    requires ClickedConfirm(c) in trace
    ensures Clicks(trace) >= 1
  {
    var before := trace[..|trace| - 1];
    assert trace == before + [trace[|trace| - 1]];
    if !trace[|trace| - 1].ClickedConfirm? { ClickCounted(before, c); }
  }

  predicate Users(attempts: Attempts, id: nat) {
    id in attempts && DidConsume(attempts[id].trace)
  }

  function RefOf(attempts: Attempts, id: nat): string
    requires id in attempts
  {
    attempts[id].q.approvalRef
  }

  /** Every attempt kept the order of its steps, and its gates were real judgements of its own inputs. */
  ghost predicate InOrder(gate: Gate, attempts: Attempts) {
    forall id :: id in attempts ==>
      Follow(attempts[id].trace).Some? && Genuine(attempts[id].trace, attempts[id].q, gate, false)
  }

  /** Every attempt's approval stays on file, a used one as used, and each is used by at most one attempt. */
  ghost predicate OneUse(attempts: Attempts, approvals: Records) {
    && (forall id :: id in attempts ==> RefOf(attempts, id) in approvals)
    && (forall id :: Users(attempts, id) ==> approvals[RefOf(attempts, id)].consumedAt.Some?)
    && (forall i, j :: Users(attempts, i) && Users(attempts, j) && RefOf(attempts, i) == RefOf(attempts, j) ==> i == j)
  }

  ghost predicate Fair(gate: Gate, w: World) {
    InOrder(gate, w.attempts) && OneUse(w.attempts, w.approvals)
  }

  lemma ApplyKeepsEnds(m: Records, op: Operation)
    requires Apply(m, op).Some?
    ensures m.Keys <= Apply(m, op).value.Keys
    ensures forall key :: key in m && !Open(m[key]) ==> Apply(m, op).value[key] == m[key]
    ensures forall key, t :: key in m && !LiveAt(m[key], t) ==> !LiveAt(Apply(m, op).value[key], t)
  {
  }

  /** A consume that follows an intended attempt is of the attempt's own approval. */
  lemma {:induction false} OwnInputs(trace: seq<Effect>, q: Inputs, gate: Gate)
    requires Genuine(trace, q, gate, false) && Follow(trace).Some?
    requires Follow(trace).value.GatedLast? || Follow(trace).value.FormRechecked? || Follow(trace).value.Intended?
    ensures var p := Follow(trace).value.inputs; p == q.(now := p.now, sourceRevisionNow := p.sourceRevisionNow)
  {
    var before, e := trace[..|trace| - 1], trace[|trace| - 1];
    if !e.Judged? || e.verdict.Some? {
      assert Genuine(before, q, gate, false);
      OwnInputs(before, q, gate);
    } else {
      assert TrueVerdict(trace[|trace| - 1], q, gate, false);
    }
  }

  /** Records that only gained: none lost, and an ended one as it was. */
  predicate Kept(m: Records, n: Records) {
    m.Keys <= n.Keys && forall key :: key in m && !Open(m[key]) ==> n[key] == m[key]
  }

  function Moved(attempts: Attempts, id: nat, e: Effect): Attempts
    requires id in attempts
  {
    attempts[id := attempts[id].(trace := attempts[id].trace + [e])]
  }

  lemma MoveKeepsOrder(gate: Gate, attempts: Attempts, id: nat, e: Effect)
    requires InOrder(gate, attempts) && id in attempts
    requires TrueVerdict(e, attempts[id].q, gate, false) && Follow(attempts[id].trace + [e]).Some?
    ensures InOrder(gate, Moved(attempts, id, e))
  {
    GenuineGrows(attempts[id].trace, e, attempts[id].q, gate, false);
  }

  lemma MovedUsers(attempts: Attempts, id: nat, e: Effect, j: nat)
    requires id in attempts
    ensures Users(Moved(attempts, id, e), j) <==>
      Users(attempts, j) || (j == id && e.ConsumedApproval? && e.answer.ConsumeDone?)
  {
    DidConsumeGrows(attempts[id].trace, e);
  }

  /** Only a successful consume makes a user, and it ends an approval that was open until then. */
  lemma MoveKeepsOneUse(attempts: Attempts, m: Records, n: Records, id: nat, e: Effect)
    requires OneUse(attempts, m) && id in attempts && Kept(m, n)
    requires e.ConsumedApproval? && e.answer.ConsumeDone? ==>
      Open(m[RefOf(attempts, id)]) && n[RefOf(attempts, id)].consumedAt.Some?
    ensures OneUse(Moved(attempts, id, e), n)
  {
    forall j
      ensures Users(Moved(attempts, id, e), j) <==>
        Users(attempts, j) || (j == id && e.ConsumedApproval? && e.answer.ConsumeDone?)
    {
      MovedUsers(attempts, id, e, j);
    }
  }

  lemma NewcomerKeepsFair(gate: Gate, attempts: Attempts, m: Records, id: nat, a: Attempt)
    requires InOrder(gate, attempts) && OneUse(attempts, m) && a.q.approvalRef in m
    requires if id in attempts then a == attempts[id].(alive := a.alive) else a.trace == []
    ensures InOrder(gate, attempts[id := a]) && OneUse(attempts[id := a], m)
  {
    forall j ensures Users(attempts[id := a], j) <==> Users(attempts, j) {}
  }

  /** What a permitted consume asks for, and what it finds. */
  lemma ConsumeOfOwnApproval(gate: Gate, w: World, id: nat, e: Effect)
    requires Fair(gate, w) && id in w.attempts && MayAct(gate, w, w.attempts[id], e)
    requires e.ConsumedApproval? && e.answer.ConsumeDone?
    ensures e.op.Consume? && e.op.ref == RefOf(w.attempts, id) && e.op.co == w.attempts[id].q.co
      && Apply(w.approvals, e.op).Some?
  {
    FollowStep(w.attempts[id].trace, e);
    OwnInputs(w.attempts[id].trace, w.attempts[id].q, gate);
  }

  lemma ConsumedApplies(m: Records, op: Operation)
    requires op.Consume? && Apply(m, op).Some?
    ensures op.ref in m && Open(m[op.ref]) && m[op.ref].co == op.co
    ensures Apply(m, op).value[op.ref].consumedAt.Some? && Apply(m, op).value.Keys == m.Keys
    ensures Kept(m, Apply(m, op).value)
  {
  }

  lemma PerformKeepsFair(gate: Gate, w: World, id: nat, e: Effect, landed: bool)
    requires Fair(gate, w) && id in w.attempts && MayAct(gate, w, w.attempts[id], e)
    ensures Fair(gate, Perform(w, id, w.attempts[id], e, landed))
  {
    var v := Perform(w, id, w.attempts[id], e, landed);
    if e.ConsumedApproval? {
      if e.answer.ConsumeDone? { ConsumeOfOwnApproval(gate, w, id, e); }
      if Reaches(w.approvals, e, landed) { ConsumedApplies(w.approvals, e.op); }
    }
    MoveKeepsOrder(gate, w.attempts, id, e);
    MoveKeepsOneUse(w.attempts, w.approvals, v.approvals, id, e);
  }

  lemma StepKeepsFair(gate: Gate, w: World, e: Event)
    requires Fair(gate, w)
    ensures Fair(gate, Step(gate, w, e))
  {
    var v := Step(gate, w, e);
    if v != w {
      match e
      case Act(id, effect, landed) => PerformKeepsFair(gate, w, id, effect, landed);
      case OwnerActs(op) => ApplyKeepsEnds(w.approvals, op);
      case Launch(id, q) => NewcomerKeepsFair(gate, w.attempts, w.approvals, id, v.attempts[id]);
      case Crash(id) => NewcomerKeepsFair(gate, w.attempts, w.approvals, id, v.attempts[id]);
      case _ =>
    }
  }

  /**
    One more line in a CO's records: this attempt's reference and revision, and the refusal of its own click as such.
  */
  predicate Ends(h: seq<Entry>, n: seq<Entry>, q: Inputs, outcome: Outcome, reason: RunReason) {
    && |n| == |h| + 1 && n[..|h|] == h
    && n[|h|].ref == Some(q.approvalRef) && n[|h|].revision == Some(q.sourceRevision) && n[|h|].outcome == outcome
    && (n[|h|].reason == "confirm_not_clicked" <==> reason.ConfirmNotClicked?)
  }

  /** The consume reached an approval that was still good. */
  predicate Consumed(m: Records, op: Operation, answer: ConsumeAnswer, landed: bool) {
    answer.ConsumeDone? || (answer.ConsumeRaised? && landed && Apply(m, op).Some?)
  }

  predicate MarkedUsed(m: Records, n: Records, ref: string) {
    ref in m && m[ref].consumedAt.None? && ref in n && n[ref].consumedAt.Some?
  }

  /** What an act of an attempt with inputs `q` leaves of the CO's records `h` and of the approvals `m`. */
  predicate Leaves(h: seq<Entry>, n: seq<Entry>, m: Records, after: Records, q: Inputs, e: Effect, landed: bool) {
    match e
    case WroteIntent(_, written) =>
      after == m
      && n == h + if written || landed
                  then [Entry(Some(q.approvalRef), Some(q.sourceRevision), AttemptStarted, "", None)] else []
    case WroteFinal(outcome, reason, written) =>
      after == m && if written || landed then Ends(h, n, q, outcome, reason) else n == h
    case ConsumedApproval(op, answer) =>
      n == h && if Consumed(m, op, answer, landed) then MarkedUsed(m, after, q.approvalRef) else after == m
    case _ => n == h && after == m
  }

  /** An effect of an attempt with inputs `q` is of its own approval, revision and click. */
  predicate Own(q: Inputs, e: Effect) {
    match e
    case WroteIntent(entry, _) =>
      entry == Entry(Some(q.approvalRef), Some(q.sourceRevision), AttemptStarted, "", None)
    case ConsumedApproval(op, _) => op.Consume? && op.ref == q.approvalRef
    case WroteFinal(_, reason, _) => CodeOf(reason) == "confirm_not_clicked" <==> reason.ConfirmNotClicked?
    case _ => true
  }

  lemma OwnStep(trace: seq<Effect>, q: Inputs, gate: Gate, e: Effect)
    requires Follow(trace).Some? && Genuine(trace, q, gate, false) && Advance(Follow(trace).value, e).Some?
    requires e.WroteFinal? ==> (CodeOf(e.reason) == NOT_CLICKED ==> e.reason.ConfirmNotClicked?)
    ensures Own(q, e)
  {
    if e.WroteIntent? || e.ConsumedApproval? { OwnInputs(trace, q, gate); }
  }

  lemma OwnEffect(gate: Gate, w: World, id: nat, e: Effect)
    requires Fair(gate, w) && id in w.attempts && MayAct(gate, w, w.attempts[id], e)
    ensures Own(w.attempts[id].q, e)
    ensures e.ConsumedApproval? && e.answer.ConsumeDone? ==> Apply(w.approvals, e.op).Some?
    ensures forall landed :: Step(gate, w, Act(id, e, landed)) == Perform(w, id, w.attempts[id], e, landed)
  {
    FollowStep(w.attempts[id].trace, e);
    OwnStep(w.attempts[id].trace, w.attempts[id].q, gate, e);
  }

  lemma LineLeft(w: World, id: nat, e: Effect, landed: bool)
    requires id in w.attempts && (e.WroteIntent? || e.WroteFinal?)
    ensures var a, v := w.attempts[id], Perform(w, id, w.attempts[id], e, landed);
            v.approvals == w.approvals
            && v.histories == if !e.written && !landed then w.histories
                              else Appended(w.histories, a.q.co,
                                            if e.WroteIntent? then e.entry else FinalEntry(a.q, e.outcome, e.reason))
  {
  }

  lemma ConsumeLeft(w: World, id: nat, e: Effect, landed: bool)
    requires id in w.attempts && e.ConsumedApproval? && e.op.Consume?
    requires e.answer.ConsumeDone? ==> Apply(w.approvals, e.op).Some?
    ensures var v := Perform(w, id, w.attempts[id], e, landed);
            v.histories == w.histories
            && if Consumed(w.approvals, e.op, e.answer, landed) then MarkedUsed(w.approvals, v.approvals, e.op.ref)
               else v.approvals == w.approvals
  {
    if Apply(w.approvals, e.op).Some? { ConsumedApplies(w.approvals, e.op); }
  }

  lemma PerformLeaves(w: World, id: nat, e: Effect, landed: bool)
    requires id in w.attempts && Own(w.attempts[id].q, e)
    requires e.ConsumedApproval? && e.answer.ConsumeDone? ==> Apply(w.approvals, e.op).Some?
    ensures var v, q := Perform(w, id, w.attempts[id], e, landed), w.attempts[id].q;
            && Leaves(HistoryOf(w.histories, q.co), HistoryOf(v.histories, q.co), w.approvals, v.approvals, q, e,
              landed)
            && forall co :: co != q.co ==> HistoryOf(v.histories, co) == HistoryOf(w.histories, co)
  {
    if e.WroteIntent? || e.WroteFinal? { LineLeft(w, id, e, landed); }
    if e.ConsumedApproval? { ConsumeLeft(w, id, e, landed); }
  }

  /**
    What one act of an attempt leaves outside: an intent or final record that was written, or raised after it had
    landed, is one more line of its CO; a consume that answered "done", or raised after it had landed on an approval
    still good, marks the attempt's own approval used. Nothing else changes anything.
  */
  lemma ActsExactly(gate: Gate, w: World, id: nat, e: Effect, landed: bool)
    requires Fair(gate, w) && id in w.attempts && MayAct(gate, w, w.attempts[id], e)
    ensures var v, q := Step(gate, w, Act(id, e, landed)), w.attempts[id].q;
            && Leaves(HistoryOf(w.histories, q.co), HistoryOf(v.histories, q.co), w.approvals, v.approvals, q, e,
              landed)
            && forall co :: co != q.co ==> HistoryOf(v.histories, co) == HistoryOf(w.histories, co)
  {
    OwnEffect(gate, w, id, e);
    PerformLeaves(w, id, e, landed);
  }

  lemma {:induction false} RunKeepsFair(gate: Gate, w: World, events: seq<Event>)
    requires Fair(gate, w)
    ensures Fair(gate, After(gate, w, events))
    decreases |events|
  {
    if events != [] {
      StepKeepsFair(gate, w, events[0]);
      RunKeepsFair(gate, Step(gate, w, events[0]), events[1..]);
    }
  }

  /**
    Whatever the gate, the interleaving and the crashes: two attempts whose Confirm was clicked never used the same
    approval, each clicked once, and each had consumed its approval, as its last gate judged it, after its
    intent was on record.
  */
  lemma OneClickPerApproval(gate: Gate, events: seq<Event>, i: nat, j: nat)
    requires var w := After(gate, NOTHING, events);
             && i in w.attempts && j in w.attempts && Clicks(w.attempts[i].trace) >= 1
               && Clicks(w.attempts[j].trace) >= 1
    ensures var w := After(gate, NOTHING, events);
            && Clicks(w.attempts[i].trace) == 1 && ConsumedAsJudged(w.attempts[i].trace)
            && RefOf(w.attempts, i) in w.approvals && w.approvals[RefOf(w.attempts, i)].consumedAt.Some?
            && (RefOf(w.attempts, i) == RefOf(w.attempts, j) ==> i == j)
  {
    RunKeepsFair(gate, NOTHING, events);
    var w := After(gate, NOTHING, events);
    ClickedMeansConsumed(w.attempts[i].trace);
    ClickedMeansConsumed(w.attempts[j].trace);
    EveryClickIsCovered(w.attempts[i].trace);
  }

  // ----- the world around the attempts ------------------------------------------------------------------------------

  /** Any number of events leaves a crashed attempt as it is. */
  lemma {:induction false} CrashedStaysSilent(gate: Gate, w: World, events: seq<Event>, id: nat)
    requires id in w.attempts && !w.attempts[id].alive
    ensures var v := After(gate, w, events); id in v.attempts && v.attempts[id] == w.attempts[id]
    decreases |events|
  {
    if events != [] { CrashedStaysSilent(gate, Step(gate, w, events[0]), events[1..], id); }
  }

  lemma CrashedIsDead(gate: Gate, w: World, id: nat)
    requires id in w.attempts
    ensures var v := Step(gate, w, Crash(id)); id in v.attempts && v.attempts[id] == w.attempts[id].(alive := false)
  {
  }

  /** The owner's issue or revocation reaches the file exactly when it is accepted there and not from the future. */
  lemma OwnerReachesFile(gate: Gate, w: World, op: Operation)
    requires !op.Consume? && ApprovalLaws.TimeOf(op) <= w.clock
    ensures Step(gate, w, OwnerActs(op)).approvals == Apply(w.approvals, op).GetOr(w.approvals)
  {
  }

  /** A gate an attempt asks is told the approvals as they are on file, and no time later than the world's. */
  lemma GateReadsTheFile(gate: Gate, w: World, id: nat, e: Effect)
    requires id in w.attempts && MayAct(gate, w, w.attempts[id], e) && e.Judged?
    ensures e.facts.approvals == Stored(w.approvals) && e.inputs.now <= w.clock
    ensures e.verdict == gate(e.inputs, e.facts, false)
  {
  }

  ghost predicate HasLooks(h: seq<Entry>) { exists looks :: Reachable(h, looks) }

  ghost predicate AllReachable(histories: Histories) { forall co :: HasLooks(HistoryOf(histories, co)) }

  lemma AppendStaysReachable(histories: Histories, co: string, e: Entry, look: nat)
    requires AllReachable(histories) && MayAppend(HistoryOf(histories, co), e, look)
    ensures AllReachable(Appended(histories, co, e))
  {
    forall other ensures HasLooks(HistoryOf(Appended(histories, co, e), other)) {
      var h := HistoryOf(histories, other);
      assert HasLooks(h);
      if other == co {
        var looks :| Reachable(h, looks);
        assert (h + [e])[..|h|] == h && (looks + [look])[..|h|] == looks;
        assert Reachable(h + [e], looks + [look]);
      }
    }
  }

  lemma FinalIsNoReview(a: Attempt, e: Effect)
    requires Follow(a.trace + [e]).Some? && e.WroteFinal?
    ensures !e.outcome.OwnerCleared?
  {
    var all := a.trace + [e];
    assert all[..|all| - 1] == a.trace && all[|all| - 1] == e;
  }

  lemma IntentIsNoReview(a: Attempt, e: Effect)
    requires Follow(a.trace + [e]).Some? && e.WroteIntent?
    ensures !e.entry.outcome.OwnerCleared?
  {
    var all := a.trace + [e];
    assert all[..|all| - 1] == a.trace && all[|all| - 1] == e;
  }

  lemma ActStaysReachable(gate: Gate, w: World, id: nat, e: Effect, landed: bool)
    requires AllReachable(w.histories) && id in w.attempts && MayAct(gate, w, w.attempts[id], e)
    ensures AllReachable(Perform(w, id, w.attempts[id], e, landed).histories)
  {
    var a := w.attempts[id];
    if e.WroteIntent? || e.WroteFinal? {
      LineLeft(w, id, e, landed);
      var entry := if e.WroteIntent? then e.entry else FinalEntry(a.q, e.outcome, e.reason);
      if e.WroteIntent? { IntentIsNoReview(a, e); } else { FinalIsNoReview(a, e); }
      AppendStaysReachable(w.histories, a.q.co, entry, 0);
    }
  }

  lemma StepStaysReachable(gate: Gate, w: World, e: Event)
    requires AllReachable(w.histories)
    ensures AllReachable(Step(gate, w, e).histories)
  {
    if e.Act? && e.id in w.attempts && MayAct(gate, w, w.attempts[e.id], e.effect) {
      ActStaysReachable(gate, w, e.id, e.effect, e.landed);
    } else if e.OwnerReviews? && Step(gate, w, e) != w {
      var entry := Entry(e.key.0, e.key.1, OwnerCleared, OWNER_REVIEWED, None);
      assert KeyOf(entry) == e.key;
      AppendStaysReachable(w.histories, e.co, entry, e.look);
    }
  }

  /**
    The records of every CO in every reachable world are a reachable history, so that all that is proved of these holds
    of attempts that run side by side: reviews only of pairs that were clearable when the tool looked.
  */
  lemma {:induction false} RecordsAreReachable(gate: Gate, w: World, events: seq<Event>)
    requires AllReachable(w.histories)
    ensures AllReachable(After(gate, w, events).histories)
    decreases |events|
  {
    if events != [] {
      StepStaysReachable(gate, w, events[0]);
      RecordsAreReachable(gate, Step(gate, w, events[0]), events[1..]);
    }
  }

  lemma FromNothing(gate: Gate, events: seq<Event>, co: string)
    ensures HasLooks(HistoryOf(After(gate, NOTHING, events).histories, co))
  {
    forall other ensures HasLooks(HistoryOf(NOTHING.histories, other)) { assert Reachable([], []); }
    RecordsAreReachable(gate, NOTHING, events);
  }
}
