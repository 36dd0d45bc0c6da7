/**
  One guarded create attempt. Everything outside is an injected call that may return anything or raise; the run keeps
  the effects it had, in order. A crash leaves a prefix of that list.
*/
module CreateRun {
  import opened Wrappers
  import opened Text
  import opened Approvals
  import opened CreateGate
  import opened History

  datatype Answer<+T> = Returned(value: T) | Raised

  datatype Click = Submitted | NotClickedAtAll | Unsure

  datatype ReadbackReason =
    | ReadbackUnavailable | NameMismatch | DomainsMismatch | AccountIdMissing | AccountIdMismatch | UuidInvalid
    | ContractUnchecked | ContractMismatch | PayloadUnchecked | PayloadMismatch

  datatype RunReason =
    | NoReason
    | Closed(gate: GateReason)
    | OwnerGoMissing | PriorRecordsInvalid | PriorNeedsReview
    | FormRefused(code: string) | FormFillFailed | FormVerificationFailed
    | ClockUnavailable
    | DuplicateCheckMissing | DuplicateRefused(code: string) | DuplicateCheckUnavailable
    | SourceCheckMissing | SourceRecheckUnavailable | SourceUuidPresent
    | FormRecheckMissing | FormChanged
    | RecordWriteFailed
    | ConsumeFailed | ConsumeRefused(reason: Reason)
    | ConfirmNotClicked | SubmitUncertain
    | Readback(problem: ReadbackReason)

  /** The read-back tenant; None stands for a missing or wrongly typed field. */
  datatype Found = Found(name: Option<string>, domains: Option<seq<string>>, accountId: Option<string>,
                         uuid: Option<string>, contract: Option<seq<string>>, payload: Option<seq<string>>)

  /** Control name to "pass"; None when the callable returned no mapping. */
  type Fields = Option<map<string, bool>>

  datatype FillAnswer = Filled(fields: Fields) | FillRefused(code: string) | FillRaised

  /** What consuming the approval answered. */
  datatype ConsumeAnswer = ConsumeDone | ConsumeNo(reason: Reason) | ConsumeRaised

  /** The behaviour of every injected call of one run. None for a check that was not passed at all. */
  datatype Environment = Environment(
    firstFacts: Facts, secondFacts: Facts, lastFacts: Facts, prior: Option<seq<Entry>>, fill: FillAnswer,
    firstClock: Answer<Option<int>>,
    duplicate: Option<Answer<Option<string>>>, source: Option<Answer<(Option<string>, Option<bool>)>>,
    secondClock: Answer<Option<int>>, recheck: Option<Answer<Fields>>, intentWritten: bool, consume: ConsumeAnswer,
    click: Answer<Click>, found: Answer<Option<Found>>, finalWritten: bool)

  datatype Effect =
    | Judged(inputs: Inputs, facts: Facts, verdict: Option<GateReason>)
    | FilledForm
    | CheckedDuplicate
    | CheckedSource
    | RecheckedForm
    | WroteIntent(entry: Entry, written: bool)
    | ConsumedApproval(op: Operation, answer: ConsumeAnswer)
    | ClickedConfirm(click: Click)
    | ReadBack
    | WroteFinal(outcome: Outcome, reason: RunReason, written: bool)

  datatype RunResult = RunResult(outcome: Outcome, reason: RunReason, recordWritten: bool, uuid: Option<string>)

  /** The gate as the run sees it: inputs, what it reads outside, and whether this is a dry run. */
  type Gate = (Inputs, Facts, bool) -> Option<GateReason>

  const RECHECK_EXTRA := {"advanced_controls", "country_code", "spycloud_state", "form_schema"}

  predicate FormVerified(fields: Fields) {
    fields.Some? && |fields.value| > 0 && forall k :: k in fields.value ==> fields.value[k]
  }

  predicate RecheckComplete(rechecked: map<string, bool>, filled: map<string, bool>) {
    filled.Keys + RECHECK_EXTRA <= rechecked.Keys
  }

  function NormaliseUuid(value: Option<string>): Option<string> {
    if value.None? then None else
    var cleaned := Lower(Strip(value.value));
    if |cleaned| == 32 && forall i :: 0 <= i < |cleaned| ==> IsHex(cleaned[i]) then Some(cleaned) else None
  }

  function PlainDomains(domains: Option<seq<string>>): Option<set<string>> {
    if domains.None? || domains.value == [] then None
    else Some(set i | 0 <= i < |domains.value| :: Plain(domains.value[i]))
  }

  /** What speaks against the row that was read back: first its name, domains and id, then its UUID and contents. */
  function CompareIdentity(q: Inputs, found: Found): Option<ReadbackReason> {
    if found.name.None? || Strip(found.name.value) != Strip(q.tenantName) then Some(NameMismatch)
    else if PlainDomains(found.domains) != PlainDomains(q.expectedDomains) then Some(DomainsMismatch)
    else if found.accountId.None? || Strip(found.accountId.value) == "" then Some(AccountIdMissing)
    else if q.expectedAccountId != "" && Strip(found.accountId.value) != Strip(q.expectedAccountId) then
      Some(AccountIdMismatch)
    else None
  }

  function CompareContents(found: Found): Option<ReadbackReason> {
    if NormaliseUuid(found.uuid).None? then Some(UuidInvalid)
    else if found.contract.None? then Some(ContractUnchecked)
    else if found.contract.value != [] then Some(ContractMismatch)
    else if found.payload.None? then Some(PayloadUnchecked)
    else if found.payload.value != [] then Some(PayloadMismatch)
    else None
  }

  function CompareReadback(q: Inputs, answer: Answer<Option<Found>>): Option<ReadbackReason> {
    if answer.Raised? || answer.value.None? then Some(ReadbackUnavailable)
    else if CompareIdentity(q, answer.value.value).Some? then CompareIdentity(q, answer.value.value)
    else CompareContents(answer.value.value)
  }

  predicate SameIdentity(q: Inputs, found: Found) {
    && found.name.Some? && Strip(found.name.value) == Strip(q.tenantName)
    && PlainDomains(found.domains) == PlainDomains(q.expectedDomains)
    && found.accountId.Some? && Strip(found.accountId.value) != ""
    && (q.expectedAccountId != "" ==> Strip(found.accountId.value) == Strip(q.expectedAccountId))
  }

  predicate SameContents(found: Found) {
    NormaliseUuid(found.uuid).Some? && found.contract == Some([]) && found.payload == Some([])
  }

  lemma IdentityMatches(q: Inputs, found: Found)
    ensures CompareIdentity(q, found).None? <==> SameIdentity(q, found)
  {
  }

  lemma ContentsMatch(found: Found)
    ensures CompareContents(found).None? <==> SameContents(found)
  {
  }

  predicate HasItems(domains: Option<seq<string>>) { domains.Some? && domains.value != [] }

  /** Some item of `domains` is this one, but for white space around it and the case of ASCII letters. */
  ghost predicate Lists(domains: seq<string>, domain: string) {
    exists i :: 0 <= i < |domains| && Lower(Strip(domains[i])) == Lower(Strip(domain))
  }

  /** The same domains in any order and number; a missing list and an empty one are alike. */
  ghost predicate SameDomains(a: Option<seq<string>>, b: Option<seq<string>>) {
    if !HasItems(a) || !HasItems(b) then !HasItems(a) && !HasItems(b)
    else (forall i :: 0 <= i < |a.value| ==> Lists(b.value, a.value[i]))
         && forall j :: 0 <= j < |b.value| ==> Lists(a.value, b.value[j])
  }

  lemma PlainListed(domains: Option<seq<string>>, domain: string)
    requires HasItems(domains)
    ensures PlainDomains(domains).Some?
    ensures Lower(Strip(domain)) in PlainDomains(domains).value <==> Lists(domains.value, domain)
  {
    if Lists(domains.value, domain) {
      var i :| 0 <= i < |domains.value| && Lower(Strip(domains.value[i])) == Lower(Strip(domain));
      assert Plain(domains.value[i]) in PlainDomains(domains).value;
    }
  }

  lemma PlainIsFrom(domains: Option<seq<string>>, d: string) returns (i: nat)
    requires HasItems(domains) && d in PlainDomains(domains).value
    ensures i < |domains.value| && d == Lower(Strip(domains.value[i]))
  {
    i :| 0 <= i < |domains.value| && d == Plain(domains.value[i]);
  }

  lemma ContainedExactly(a: Option<seq<string>>, b: Option<seq<string>>)
    requires HasItems(a) && HasItems(b)
    ensures PlainDomains(a).value <= PlainDomains(b).value
       <==> forall i :: 0 <= i < |a.value| ==> Lists(b.value, a.value[i])
  {
    forall i | 0 <= i < |a.value|
      ensures Lower(Strip(a.value[i])) in PlainDomains(a).value
      ensures Lower(Strip(a.value[i])) in PlainDomains(b).value <==> Lists(b.value, a.value[i])
    {
      assert Lists(a.value, a.value[i]);
      PlainListed(a, a.value[i]);
      PlainListed(b, a.value[i]);
    }
    forall d | d in PlainDomains(a).value && forall i :: 0 <= i < |a.value| ==> Lists(b.value, a.value[i])
      ensures d in PlainDomains(b).value
    {
      var i := PlainIsFrom(a, d);
      assert Lists(b.value, a.value[i]);
    }
  }

  lemma DomainsAgreeExactly(a: Option<seq<string>>, b: Option<seq<string>>)
    ensures PlainDomains(a) == PlainDomains(b) <==> SameDomains(a, b)
  {
    if HasItems(a) && HasItems(b) {
      ContainedExactly(a, b);
      ContainedExactly(b, a);
      var x, y := PlainDomains(a).value, PlainDomains(b).value;
      assert x == y <==> x <= y && y <= x;
      assert PlainDomains(a) == Some(x) && PlainDomains(b) == Some(y);
    }
  }

  predicate HexDigit(c: char) { '0' <= c <= '9' || 'a' <= c <= 'f' || 'A' <= c <= 'F' }

  /** 32 hexadecimal digits of either case, whatever white space is around them. */
  predicate IsUuid(value: Option<string>) {
    value.Some? && |Strip(value.value)| == 32 && forall i :: 0 <= i < 32 ==> HexDigit(Strip(value.value)[i])
  }

  /** A UUID is read exactly from such a text, and as its digits in small letters. */
  lemma UuidReadExactly(value: Option<string>)
    ensures NormaliseUuid(value).Some? <==> IsUuid(value)
    ensures NormaliseUuid(value).Some? ==> NormaliseUuid(value).value == Lower(Strip(value.value))
  {
    if value.Some? {
      var text := Strip(value.value);
      forall i | 0 <= i < |text| ensures IsHex(Lower(text)[i]) <==> HexDigit(text[i]) { LowerExactly(text, i); }
      if |text| == 32 && NormaliseUuid(value).Some? {
        forall i | 0 <= i < 32 ensures HexDigit(text[i]) { assert IsHex(Lower(text)[i]); }
      }
    }
  }

  /** The row is the one that was asked for. */
  ghost predicate IsExpected(q: Inputs, found: Found) {
    && found.name.Some? && Strip(found.name.value) == Strip(q.tenantName)
    && SameDomains(found.domains, q.expectedDomains)
    && found.accountId.Some? && Strip(found.accountId.value) != ""
    && (q.expectedAccountId != "" ==> Strip(found.accountId.value) == Strip(q.expectedAccountId))
    && IsUuid(found.uuid) && found.contract == Some([]) && found.payload == Some([])
  }

  /**
    The readback finds nothing exactly when the row it got is the one that was asked for: name, domains and, where one
    is expected, id are the expected ones, the UUID is one, and neither comparison of contents found a difference.
  */
  lemma ReadbackMatchesExactly(q: Inputs, answer: Answer<Option<Found>>)
    ensures CompareReadback(q, answer).None? <==>
      answer.Returned? && answer.value.Some? && IsExpected(q, answer.value.value)
    ensures CompareReadback(q, answer).None? ==>
      NormaliseUuid(answer.value.value.uuid) == Some(Lower(Strip(answer.value.value.uuid.value)))
  {
    if answer.Returned? && answer.value.Some? {
      var found := answer.value.value;
      IdentityMatches(q, found);
      ContentsMatch(found);
      DomainsAgreeExactly(found.domains, q.expectedDomains);
      UuidReadExactly(found.uuid);
    }
  }

  // ----- the order every run keeps ----------------------------------------------------------------------------------

  /** How far a live attempt has come; the last gate's inputs travel along to the consume. */
  datatype Phase =
    | Fresh | GatedOnce | FormFilled | GatedTwice | NoDuplicate | SourceRead
    | GatedLast(inputs: Inputs) | FormRechecked(inputs: Inputs) | Intended(inputs: Inputs)
    | Consumed | SubmittedOnce | Unknown | Untouched | Finished

  /** The record written before anything is consumed or clicked. */
  function IntentEntry(q: Inputs): Entry {
    Entry(Some(q.approvalRef), Some(q.sourceRevision), AttemptStarted, "", None)
  }

  /** The consume asks for exactly what the last gate judged: its time, its current revision, its CO and route. */
  function ConsumeOf(q: Inputs): Operation {
    Consume(q.approvalRef, q.co, q.route, q.sourceRevisionNow.GetOr(""), q.now, ConsumeName(q))
  }

  function AfterClick(click: Click): Phase {
    match click case Submitted => SubmittedOnce case NotClickedAtAll => Untouched case Unsure => Unknown
  }

  /** The phase after an effect, None when the effect may not happen there. */
  function Advance(phase: Phase, e: Effect): Option<Phase> {
    match e
    case Judged(q, facts, verdict) =>
      if verdict.Some? then (if phase.Fresh? || phase.FormFilled? || phase.SourceRead? then Some(phase) else None)
      else if phase.Fresh? then Some(GatedOnce)
      else if phase.FormFilled? then Some(GatedTwice)
      else if phase.SourceRead? then Some(GatedLast(q))
      else None
    case FilledForm => if phase.GatedOnce? then Some(FormFilled) else None
    case CheckedDuplicate => if phase.GatedTwice? then Some(NoDuplicate) else None
    case CheckedSource => if phase.NoDuplicate? then Some(SourceRead) else None
    case RecheckedForm => if phase.GatedLast? then Some(FormRechecked(phase.inputs)) else None
    case WroteIntent(entry, written) =>
      if !phase.FormRechecked? || entry != IntentEntry(phase.inputs) then None
      else Some(if written then Intended(phase.inputs) else phase)
    case ConsumedApproval(op, answer) =>
      if !phase.Intended? || op != ConsumeOf(phase.inputs) then None
      else Some(if answer.ConsumeDone? then Consumed else phase)
    case ClickedConfirm(click) =>
      if !phase.Consumed? then None
      else Some(AfterClick(click))
    case ReadBack => if phase.SubmittedOnce? then Some(SubmittedOnce) else None
    case WroteFinal(outcome, reason, _) =>
      if phase.Finished? || phase.Consumed? then None
      else if phase.SubmittedOnce? then
        (if outcome.CreatedUnverified? || outcome.ReadbackVerified? then Some(Finished) else None)
      else if phase.Unknown? then (if outcome.UncertainSubmit? then Some(Finished) else None)
      else if phase.Untouched? then (if outcome.Refused? && reason.ConfirmNotClicked? then Some(Finished) else None)
      else if outcome.Refused? && !reason.ConfirmNotClicked? then Some(Finished)
      else if outcome.DryRunPassed? && phase.FormFilled? then Some(Finished)
      else None
  }

  /** The phase a list of effects ends in, None when some effect came out of order. */
  function Follow(trace: seq<Effect>): Option<Phase> {
    if trace == [] then Some(Fresh) else
    var before := Follow(trace[..|trace| - 1]);
    if before.None? then None else Advance(before.value, trace[|trace| - 1])
  }

  lemma FollowStep(trace: seq<Effect>, e: Effect)
    requires Follow(trace).Some?
    ensures Follow(trace + [e]) == Advance(Follow(trace).value, e)
  {
    assert (trace + [e])[..|trace|] == trace;
  }

  // ----- what the order means ---------------------------------------------------------------------------------------

  function Clicks(trace: seq<Effect>): nat {
    if trace == [] then 0
    else Clicks(trace[..|trace| - 1]) + (if trace[|trace| - 1].ClickedConfirm? then 1 else 0)
  }

  /** A gate opened for exactly these inputs somewhere in the list. */
  predicate GateOpened(trace: seq<Effect>, q: Inputs) {
    exists i :: 0 <= i < |trace| && trace[i].Judged? && trace[i].inputs == q && trace[i].verdict.None?
  }

  predicate IntentOnRecord(trace: seq<Effect>, q: Inputs) { WroteIntent(IntentEntry(q), true) in trace }

  /** The approval was consumed, at the time and revision of a gate that opened, after the intent was on record. */
  ghost predicate ConsumedAsJudged(trace: seq<Effect>) {
    exists i, q: Inputs :: 0 <= i < |trace| && trace[i].ConsumedApproval? && trace[i].answer.ConsumeDone?
      && trace[i].op == ConsumeOf(q) && GateOpened(trace[..i], q) && IntentOnRecord(trace[..i], q)
  }

  lemma {:induction false} LastGate(trace: seq<Effect>, q: Inputs)
    requires Follow(trace) == Some(GatedLast(q)) || Follow(trace) == Some(FormRechecked(q))
      || Follow(trace) == Some(Intended(q))
    ensures GateOpened(trace, q) && Clicks(trace) == 0
    ensures Follow(trace) == Some(Intended(q)) ==> IntentOnRecord(trace, q)
  {
    var before, e := trace[..|trace| - 1], trace[|trace| - 1];
    assert trace == before + [e];
    if e.Judged? {
      BeforeLastGate(before);
      assert trace[|trace| - 1].Judged?;
    } else {
      LastGate(before, q);
      var i :| 0 <= i < |before| && before[i].Judged? && before[i].inputs == q && before[i].verdict.None?;
      assert trace[i] == before[i];
    }
  }

  predicate Early(phase: Phase) {
    phase.Fresh? || phase.GatedOnce? || phase.FormFilled? || phase.GatedTwice? || phase.NoDuplicate?
      || phase.SourceRead?
  }

  lemma {:induction false} BeforeLastGate(trace: seq<Effect>)
    requires Follow(trace).Some? && Early(Follow(trace).value)
    ensures Clicks(trace) == 0
  {
    if trace != [] { BeforeLastGate(trace[..|trace| - 1]); }
  }

  predicate PastClick(phase: Phase) { phase.SubmittedOnce? || phase.Unknown? || phase.Untouched? }

  lemma ConsumedPhase(trace: seq<Effect>)
    requires Follow(trace) == Some(Consumed)
    ensures ConsumedAsJudged(trace) && Clicks(trace) == 0
  {
    var before, e := trace[..|trace| - 1], trace[|trace| - 1];
    var q := Follow(before).value.inputs;
    LastGate(before, q);
    assert trace[|trace| - 1].answer.ConsumeDone? && trace[..|trace| - 1] == before;
  }

  /** How many clicks a phase stands for. */
  predicate ClicksFit(phase: Phase, clicks: nat) {
    clicks <= 1 && (PastClick(phase) ==> clicks == 1) && (!PastClick(phase) && !phase.Finished? ==> clicks == 0)
  }

  lemma AdvanceFits(phase: Phase, e: Effect, clicks: nat)
    requires ClicksFit(phase, clicks) && Advance(phase, e).Some?
    ensures ClicksFit(Advance(phase, e).value, clicks + if e.ClickedConfirm? then 1 else 0)
    ensures e.ClickedConfirm? ==> phase.Consumed?
  {
  }

  /**
    In any prefix of any run (so also after a crash) Confirm is clicked at most once, and before the click the approval
    was consumed, at the time and revision a gate had just opened for, with the intent record already written.
  */
  lemma {:induction false} EveryClickIsCovered(trace: seq<Effect>)
    requires Follow(trace).Some?
    ensures ClicksFit(Follow(trace).value, Clicks(trace)) && (Clicks(trace) == 1 ==> ConsumedAsJudged(trace))
  {
    if trace != [] {
      var before, e := trace[..|trace| - 1], trace[|trace| - 1];
      EveryClickIsCovered(before);
      AdvanceFits(Follow(before).value, e, Clicks(before));
      if e.ClickedConfirm? { ConsumedPhase(before); }
      if Clicks(trace) == 1 { ConsumedEarlier(before, trace); }
    }
  }

  lemma ConsumedEarlier(before: seq<Effect>, trace: seq<Effect>)
    requires before <= trace && ConsumedAsJudged(before)
    ensures ConsumedAsJudged(trace)
  {
    var i, q: Inputs :| 0 <= i < |before| && before[i].ConsumedApproval? && before[i].answer.ConsumeDone?
      && before[i].op == ConsumeOf(q) && GateOpened(before[..i], q) && IntentOnRecord(before[..i], q);
    assert trace[i] == before[i] && trace[..i] == before[..i];
  }

  /** Confirm has one answer, and the form was filled before it. */
  lemma {:induction false} OneAnswer(trace: seq<Effect>, c: Click, d: Click)
    requires Follow(trace).Some? && ClickedConfirm(c) in trace && ClickedConfirm(d) in trace
    ensures c == d && Clicks(trace) == 1
  {
    var before, e := trace[..|trace| - 1], trace[|trace| - 1];
    assert trace == before + [e];
    EveryClickIsCovered(trace);
    EveryClickIsCovered(before);
    if ClickedConfirm(c) in before && ClickedConfirm(d) in before { OneAnswer(before, c, d); }
    else if ClickedConfirm(c) in before { OneAnswer(before, c, c); }
    else if ClickedConfirm(d) in before { OneAnswer(before, d, d); }
  }

  lemma {:induction false} FilledBefore(trace: seq<Effect>)
    requires Follow(trace).Some?
    requires Clicks(trace) == 1
          || !(Follow(trace).value.Fresh? || Follow(trace).value.GatedOnce? || Follow(trace).value.Finished?)
    ensures FilledForm in trace
  {
    var before, e := trace[..|trace| - 1], trace[|trace| - 1];
    assert trace == before + [e];
    if e != FilledForm { FilledBefore(before); }
  }

  // ----- the run itself ---------------------------------------------------------------------------------------------

  function Moment(answer: Answer<Option<int>>): Option<int> {
    if answer.Returned? then answer.value else None
  }

  /** The inputs of the second gate, and of the last one. */
  function AtSecondGate(q: Inputs, env: Environment): Inputs {
    q.(now := Moment(env.firstClock).GetOr(0))
  }

  /** The revision the Salesforce re-read answered. */
  function FreshRevision(env: Environment): Option<string> {
    if env.source.Some? && env.source.value.Returned? then env.source.value.value.0 else None
  }

  function AtLastGate(q: Inputs, env: Environment): Inputs {
    q.(now := Moment(env.secondClock).GetOr(0), sourceRevisionNow := FreshRevision(env))
  }

  predicate OpeningClear(q: Inputs, dryRun: bool, ownerGo: bool, priorCleared: bool, gate: Gate, env: Environment) {
    && gate(q, env.firstFacts, dryRun).None?
    && (dryRun || (ownerGo && env.prior.Some? && !PriorAttemptNeedsReview(env.prior.value, priorCleared)))
    && env.fill.Filled? && FormVerified(env.fill.fields)
  }

  /** The second gate, the live duplicate check and the Salesforce re-read all passed. */
  predicate SourcesClear(q: Inputs, gate: Gate, env: Environment) {
    && Moment(env.firstClock).Some? && gate(AtSecondGate(q, env), env.secondFacts, false).None?
    && env.duplicate == Some(Returned(None)) && SourceClear(env)
  }

  /** The Salesforce re-read answered a revision and that there is no UUID. */
  predicate SourceClear(env: Environment) {
    && env.source.Some? && env.source.value.Returned?
    && env.source.value.value.0.GetOr("") != "" && env.source.value.value.1 == Some(false)
  }

  /** The last gate, judged at a fresh time and revision, and a complete re-check of the form. */
  predicate LastLookClear(q: Inputs, gate: Gate, env: Environment) {
    && Moment(env.secondClock).Some? && gate(AtLastGate(q, env), env.lastFacts, false).None?
    && FormStillVerified(env)
  }

  /** The form was re-checked in full and still passes. */
  predicate FormStillVerified(env: Environment) {
    && env.recheck.Some? && env.recheck.value.Returned? && FormVerified(env.recheck.value.value)
    && env.fill.Filled? && env.fill.fields.Some?
    && RecheckComplete(env.recheck.value.value.value, env.fill.fields.value)
  }

  /** The click of a live attempt whose form is filled: made exactly when every later step passed. */
  function ClickAfterFill(q: Inputs, gate: Gate, env: Environment): Option<Click> {
    if SourcesClear(q, gate, env) && LastLookClear(q, gate, env) then ClickAfterChecks(env) else None
  }

  function ExpectedClick(q: Inputs, dryRun: bool, ownerGo: bool, priorCleared: bool, gate: Gate,
      env: Environment): Option<Click> {
    if !dryRun && OpeningClear(q, false, ownerGo, priorCleared, gate, env) then ClickAfterFill(q, gate, env) else None
  }

  function ClickOf(env: Environment): Click {
    if env.click.Returned? then env.click.value else Unsure
  }

  /** A gate effect is a real judgement of the run's own inputs, with nothing replaced but the time and the revision. */
  predicate TrueVerdict(e: Effect, q: Inputs, gate: Gate, dryRun: bool) {
    e.Judged? ==>
      e.verdict == gate(e.inputs, e.facts, dryRun)
      && e.inputs == q.(now := e.inputs.now, sourceRevisionNow := e.inputs.sourceRevisionNow)
  }

  predicate Genuine(trace: seq<Effect>, q: Inputs, gate: Gate, dryRun: bool) {
    forall i :: 0 <= i < |trace| ==> TrueVerdict(trace[i], q, gate, dryRun)
  }

  /** What the gate is asked in each phase: first the inputs as given, then with the clock as it was just read. */
  predicate AskedAt(phase: Phase, inputs: Inputs, facts: Facts, q: Inputs, env: Environment) {
    if phase.Fresh? then inputs == q && facts == env.firstFacts
    else if phase.FormFilled? then
      Moment(env.firstClock).Some? && inputs == AtSecondGate(q, env) && facts == env.secondFacts
    else Moment(env.secondClock).Some? && inputs == AtLastGate(q, env) && facts == env.lastFacts
  }

  /** What an effect reports is what the injected calls of this run answered. */
  predicate Reported(phase: Phase, e: Effect, q: Inputs, env: Environment) {
    match e
    case Judged(inputs, facts, _) => AskedAt(phase, inputs, facts, q, env)
    case FilledForm => env.fill.Filled? && FormVerified(env.fill.fields)
    case CheckedDuplicate => env.duplicate == Some(Returned(None))
    case CheckedSource => SourceClear(env)
    case RecheckedForm => FormStillVerified(env)
    case WroteIntent(_, written) => written == env.intentWritten
    case ConsumedApproval(_, answer) => answer == env.consume
    case ClickedConfirm(click) => click == ClickOf(env)
    case ReadBack => true
    case WroteFinal(_, _, written) => written == env.finalWritten
  }

  /** Every effect came in order and reports what the injected calls answered. */
  predicate FromEnvironment(trace: seq<Effect>, q: Inputs, env: Environment) {
    trace == [] ||
    var before := trace[..|trace| - 1];
    FromEnvironment(before, q, env) && Follow(before).Some?
    && Reported(Follow(before).value, trace[|trace| - 1], q, env)
  }

  /** A list of effects of this run: true verdicts of the gate and true reports of the injected calls. */
  predicate Faithful(trace: seq<Effect>, q: Inputs, gate: Gate, dryRun: bool, env: Environment) {
    Genuine(trace, q, gate, dryRun) && FromEnvironment(trace, q, env)
  }

  /** An effect that changes nothing outside the form. */
  predicate IsHarmless(e: Effect) { !e.WroteIntent? && !e.ConsumedApproval? && !e.ClickedConfirm? }

  predicate Harmless(trace: seq<Effect>) {
    forall i :: 0 <= i < |trace| ==> IsHarmless(trace[i])
  }

  /** Confirm was clicked with this answer, or not at all. */
  ghost predicate OnlyClick(trace: seq<Effect>, click: Option<Click>) {
    forall c :: ClickedConfirm(c) in trace <==> click == Some(c)
  }

  lemma GenuineGrows(trace: seq<Effect>, e: Effect, q: Inputs, gate: Gate, dryRun: bool)
    requires Genuine(trace, q, gate, dryRun) && TrueVerdict(e, q, gate, dryRun)
    ensures Genuine(trace + [e], q, gate, dryRun)
  {
  }

  lemma Log(trace: seq<Effect>, e: Effect, q: Inputs, gate: Gate, dryRun: bool, env: Environment)
    requires Follow(trace).Some? && Faithful(trace, q, gate, dryRun, env)
    requires TrueVerdict(e, q, gate, dryRun) && Reported(Follow(trace).value, e, q, env)
    ensures Follow(trace + [e]) == Advance(Follow(trace).value, e)
    ensures Faithful(trace + [e], q, gate, dryRun, env)
    ensures Harmless(trace) && IsHarmless(e) ==> Harmless(trace + [e])
    ensures !e.ClickedConfirm? ==> forall click :: OnlyClick(trace, click) ==> OnlyClick(trace + [e], click)
    ensures e.ClickedConfirm? && OnlyClick(trace, None) ==> OnlyClick(trace + [e], Some(e.click))
  {
    FollowStep(trace, e);
    assert (trace + [e])[..|trace|] == trace;
    assert forall c :: ClickedConfirm(c) in trace + [e] <==> ClickedConfirm(c) in trace || e == ClickedConfirm(c);
  }

  lemma NoClickYet(trace: seq<Effect>)
    requires Harmless(trace)
    ensures OnlyClick(trace, None)
  {
  }

  /**
    The outcome tells the click and the comparison apart, in both directions; a UUID comes only with a verified
    create.
  */
  predicate ConsistentWith(click: Option<Click>, problem: Option<ReadbackReason>, result: RunResult,
      found: Answer<Option<Found>>) {
    && (result.outcome.ReadbackVerified? <==> click == Some(Submitted) && problem.None?)
    && (result.outcome.CreatedUnverified? <==> click == Some(Submitted) && problem.Some?)
    && (result.outcome.UncertainSubmit? <==> click == Some(Unsure))
    && (result.outcome.Refused? && result.reason.ConfirmNotClicked? <==> click == Some(NotClickedAtAll))
    && (result.outcome.CreatedUnverified? ==> result.reason.Readback? && problem == Some(result.reason.problem))
    && (result.uuid.Some? <==> result.outcome.ReadbackVerified?)
    && (result.uuid.Some? ==> found.Returned? && found.value.Some?)
    && (result.uuid.Some? ==> result.uuid == NormaliseUuid(found.value.value.uuid))
  }

  predicate Consistent(click: Option<Click>, q: Inputs, result: RunResult, env: Environment) {
    ConsistentWith(click, CompareReadback(q, env.found), result, env.found)
  }

  /** Whatever list of effects a run leaves: where the intent could not be written, nothing is consumed or clicked. */
  lemma {:induction false} NothingWithoutIntent(trace: seq<Effect>, q: Inputs, env: Environment)
    requires FromEnvironment(trace, q, env) && Follow(trace).Some? && !env.intentWritten
    ensures forall i :: 0 <= i < |trace| ==> !trace[i].ConsumedApproval? && !trace[i].ClickedConfirm?
    ensures !Follow(trace).value.Intended? && !Follow(trace).value.Consumed?
  {
    if trace != [] { NothingWithoutIntent(trace[..|trace| - 1], q, env); }
  }

  function Rank(phase: Phase): nat {
    match phase
    case Fresh => 0 case GatedOnce => 1 case FormFilled => 2 case GatedTwice => 3 case NoDuplicate => 4
    case SourceRead => 5
    case GatedLast(_) => 6 case FormRechecked(_) => 7 case Intended(_) => 8 case Consumed => 9
    case SubmittedOnce => 9 case Unknown => 9 case Untouched => 9 case Finished => 0
  }

  /** What a phase shows of the checks passed before it. */
  predicate ReachedClear(phase: Phase, q: Inputs, gate: Gate, env: Environment) {
    && (Rank(phase) >= 1 ==> gate(q, env.firstFacts, false).None?)
    && (Rank(phase) >= 2 ==> env.fill.Filled? && FormVerified(env.fill.fields))
    && (Rank(phase) >= 3 ==> gate(AtSecondGate(q, env), env.secondFacts, false).None?)
    && (Rank(phase) >= 4 ==> env.duplicate == Some(Returned(None)))
    && (Rank(phase) >= 5 ==> SourceClear(env))
    && (Rank(phase) >= 6 ==> gate(AtLastGate(q, env), env.lastFacts, false).None?)
    && (Rank(phase) >= 7 ==> FormStillVerified(env))
    && (Rank(phase) >= 6 ==> Moment(env.secondClock).Some?)
    && (phase.GatedLast? || phase.FormRechecked? || phase.Intended? ==> phase.inputs == AtLastGate(q, env))
  }

  lemma GateReached(phase: Phase, e: Effect, q: Inputs, gate: Gate, env: Environment)
    requires e.Judged? && ReachedClear(phase, q, gate, env) && Advance(phase, e).Some?
    requires TrueVerdict(e, q, gate, false) && Reported(phase, e, q, env)
    ensures ReachedClear(Advance(phase, e).value, q, gate, env)
  {
  }

  lemma OtherReached(phase: Phase, e: Effect, q: Inputs, gate: Gate, env: Environment)
    requires !e.Judged? && ReachedClear(phase, q, gate, env) && Advance(phase, e).Some? && Reported(phase, e, q, env)
    ensures ReachedClear(Advance(phase, e).value, q, gate, env)
  {
  }

  lemma StepReached(phase: Phase, e: Effect, q: Inputs, gate: Gate, env: Environment)
    requires ReachedClear(phase, q, gate, env) && Advance(phase, e).Some?
    requires TrueVerdict(e, q, gate, false) && Reported(phase, e, q, env)
    ensures ReachedClear(Advance(phase, e).value, q, gate, env)
  {
    if e.Judged? { GateReached(phase, e, q, gate, env); } else { OtherReached(phase, e, q, gate, env); }
  }

  lemma {:induction false} RunReached(trace: seq<Effect>, q: Inputs, gate: Gate, env: Environment)
    requires Faithful(trace, q, gate, false, env) && Follow(trace).Some?
    ensures ReachedClear(Follow(trace).value, q, gate, env)
  {
    if trace != [] {
      var before := trace[..|trace| - 1];
      RunReached(before, q, gate, env);
      StepReached(Follow(before).value, trace[|trace| - 1], q, gate, env);
    }
  }

  lemma {:induction false} PrefixIsFaithful(trace: seq<Effect>, i: nat, q: Inputs, gate: Gate, env: Environment)
    requires Faithful(trace, q, gate, false, env) && Follow(trace).Some? && i < |trace|
    ensures Faithful(trace[..i], q, gate, false, env) && Follow(trace[..i]).Some?
    ensures Advance(Follow(trace[..i]).value, trace[i]).Some?
  {
    if i < |trace| - 1 {
      var before := trace[..|trace| - 1];
      assert before[..i] == trace[..i];
      PrefixIsFaithful(before, i, q, gate, env);
    }
  }

  predicate ChecksPassed(q: Inputs, gate: Gate, env: Environment) {
    && gate(q, env.firstFacts, false).None? && env.fill.Filled? && FormVerified(env.fill.fields)
    && gate(AtSecondGate(q, env), env.secondFacts, false).None? && env.duplicate == Some(Returned(None))
    && SourceClear(env) && gate(AtLastGate(q, env), env.lastFacts, false).None? && FormStillVerified(env)
  }

  lemma LateMeansPassed(phase: Phase, q: Inputs, gate: Gate, env: Environment)
    requires ReachedClear(phase, q, gate, env) && Rank(phase) >= 7
    ensures ChecksPassed(q, gate, env)
  {
  }

  lemma TriedLate(phase: Phase, e: Effect)
    requires Advance(phase, e).Some? && (e.WroteIntent? || e.ConsumedApproval? || e.ClickedConfirm?)
    ensures Rank(phase) >= 7
  {
  }

  /** Where an intent was written or a consume tried, every check before had passed on what the run itself read. */
  lemma TriedOnlyWhenClear(trace: seq<Effect>, i: nat, q: Inputs, gate: Gate, env: Environment)
    requires Faithful(trace, q, gate, false, env) && Follow(trace).Some?
    requires i < |trace| && (trace[i].WroteIntent? || trace[i].ConsumedApproval? || trace[i].ClickedConfirm?)
    ensures ChecksPassed(q, gate, env)
  {
    PrefixIsFaithful(trace, i, q, gate, env);
    RunReached(trace[..i], q, gate, env);
    TriedLate(Follow(trace[..i]).value, trace[i]);
    LateMeansPassed(Follow(trace[..i]).value, q, gate, env);
  }

  /** And the form was filled with every control passing, and re-read with all of these and four more passing. */
  lemma TriedOnlyWithForm(trace: seq<Effect>, i: nat, q: Inputs, gate: Gate, env: Environment)
    requires Faithful(trace, q, gate, false, env) && Follow(trace).Some?
    requires i < |trace| && (trace[i].WroteIntent? || trace[i].ConsumedApproval? || trace[i].ClickedConfirm?)
    ensures env.fill.Filled? && env.fill.fields.Some? && env.fill.fields.value != map[]
    ensures forall k :: k in env.fill.fields.value ==> env.fill.fields.value[k]
    ensures env.recheck.Some? && env.recheck.value.Returned? && env.recheck.value.value.Some?
    ensures var again := env.recheck.value.value.value;
            && (forall k :: k in env.fill.fields.value ==> k in again) && (forall k :: k in again ==> again[k])
            && "advanced_controls" in again && "country_code" in again && "spycloud_state" in again
            && "form_schema" in again
  {
    TriedOnlyWhenClear(trace, i, q, gate, env);
    var again := env.recheck.value.value.value;
    assert forall k :: k in env.fill.fields.value ==> k in env.fill.fields.value.Keys;
    assert RECHECK_EXTRA <= again.Keys;
  }

  /** The source was read again: this revision, and no UUID. */
  predicate SourceSays(env: Environment, revision: string) {
    revision != "" && env.source == Some(Returned((Some(revision), Some(false))))
  }

  /** The inputs of the last gate: the second clock's time and the revision the source just showed. */
  predicate LastAsked(inputs: Inputs, q: Inputs, env: Environment) {
    && env.secondClock.Returned? && env.secondClock.value.Some? && inputs.sourceRevisionNow.Some?
    && SourceSays(env, inputs.sourceRevisionNow.value)
    && inputs == q.(now := env.secondClock.value.value, sourceRevisionNow := inputs.sourceRevisionNow)
  }

  /** An effect in terms of what the run was given and what the outside answered. */
  predicate AsRead(e: Effect, q: Inputs, env: Environment) {
    match e
    case Judged(inputs, facts, _) =>
      (inputs == q && facts == env.firstFacts)
      || (env.firstClock.Returned? && env.firstClock.value.Some?
          && inputs == q.(now := env.firstClock.value.value) && facts == env.secondFacts)
      || (LastAsked(inputs, q, env) && facts == env.lastFacts)
    case WroteIntent(entry, written) =>
      entry == Entry(Some(q.approvalRef), Some(q.sourceRevision), AttemptStarted, "", None)
      && written == env.intentWritten
    case ConsumedApproval(op, answer) =>
      && answer == env.consume && op.Consume? && op.ref == q.approvalRef && op.co == q.co && op.route == q.route
      && env.secondClock == Returned(Some(op.now)) && SourceSays(env, op.revision)
      && op.tenantName == if q.route == Case3 then Some(q.tenantName) else None
    case ClickedConfirm(click) => env.click == Returned(click) || (env.click.Raised? && click.Unsure?)
    case WroteFinal(_, _, written) => written == env.finalWritten
    case _ => true
  }

  lemma StepAsRead(phase: Phase, e: Effect, q: Inputs, gate: Gate, env: Environment)
    requires ReachedClear(phase, q, gate, env) && Advance(phase, e).Some? && Reported(phase, e, q, env)
    ensures AsRead(e, q, env)
  {
    if SourceClear(env) {
      var answer := env.source.value.value;
      assert SourceSays(env, answer.0.value);
    }
  }

  /**
    Every gate is asked about, and the intent record, the consume and the click are, what the run was given and what it
    read: the approval is consumed at the second clock's time, for the revision the source then showed and, in Case 3,
    for this tenant's name.
  */
  lemma DoneAsRead(trace: seq<Effect>, i: nat, q: Inputs, gate: Gate, env: Environment)
    requires Faithful(trace, q, gate, false, env) && Follow(trace).Some? && i < |trace|
    ensures AsRead(trace[i], q, env)
  {
    PrefixIsFaithful(trace, i, q, gate, env);
    RunReached(trace[..i], q, gate, env);
    ReportedAt(trace, i, q, env);
    StepAsRead(Follow(trace[..i]).value, trace[i], q, gate, env);
  }

  lemma {:induction false} ReportedAt(trace: seq<Effect>, i: nat, q: Inputs, env: Environment)
    requires FromEnvironment(trace, q, env) && i < |trace|
    ensures Follow(trace[..i]).Some? && Reported(Follow(trace[..i]).value, trace[i], q, env)
  {
    var before := trace[..|trace| - 1];
    if i < |before| {
      assert before[..i] == trace[..i];
      ReportedAt(before, i, q, env);
    }
  }

  // ----- what a run promises, in plain terms ------------------------------------------------------------------------

  /** Every control of the filled form passes, and there is one. */
  predicate AllPass(fields: Fields) {
    fields.Some? && fields.value != map[] && forall k :: k in fields.value ==> fields.value[k]
  }

  /** The opening is clear: gate, form and, for a live run, the owner's go and no record that waits for a review. */
  lemma OpeningClearExactly(q: Inputs, dryRun: bool, ownerGo: bool, priorCleared: bool, gate: Gate, env: Environment)
    ensures OpeningClear(q, dryRun, ownerGo, priorCleared, gate, env) <==>
      && gate(q, env.firstFacts, dryRun).None? && env.fill.Filled? && AllPass(env.fill.fields)
      && (dryRun
          || (ownerGo && env.prior.Some?
              && (priorCleared
                  || forall e :: e in env.prior.value ==>
                       e.outcome.DryRunPassed? || e.outcome.Refused? || e.outcome.OwnerCleared?)))
  {
    if env.prior.Some? {
      var h := env.prior.value;
      assert (exists i :: 0 <= i < |h| && NeedsReview(h[i].outcome)) <==> exists e :: e in h && NeedsReview(e.outcome);
    }
  }

  /** All that was asked between the filled form and the intent record answered clear. */
  predicate AnsweredClear(q: Inputs, gate: Gate, env: Environment, revision: string) {
    && env.firstClock.Returned? && env.firstClock.value.Some?
    && gate(q.(now := env.firstClock.value.value), env.secondFacts, false).None?
    && env.duplicate == Some(Returned(None)) && SourceSays(env, revision)
    && env.secondClock.Returned? && env.secondClock.value.Some?
    && gate(q.(now := env.secondClock.value.value, sourceRevisionNow := Some(revision)), env.lastFacts, false).None?
    && env.recheck.Some? && env.recheck.value.Returned? && AllPass(env.recheck.value.value)
    && env.fill.Filled? && env.fill.fields.Some?
    && (forall k :: k in env.fill.fields.value ==> k in env.recheck.value.value.value)
    && (forall k :: k in {"advanced_controls", "country_code", "spycloud_state", "form_schema"} ==>
          k in env.recheck.value.value.value)
  }

  lemma FormStillPasses(env: Environment)
    ensures FormStillVerified(env) <==>
      && env.recheck.Some? && env.recheck.value.Returned? && AllPass(env.recheck.value.value)
      && env.fill.Filled? && env.fill.fields.Some?
      && (forall k :: k in env.fill.fields.value ==> k in env.recheck.value.value.value)
      && (forall k :: k in {"advanced_controls", "country_code", "spycloud_state", "form_schema"} ==>
            k in env.recheck.value.value.value)
  {
    if env.recheck.Some? && env.recheck.value.Returned? && env.recheck.value.value.Some?
       && env.fill.Filled? && env.fill.fields.Some? {
      var filled, again := env.fill.fields.value, env.recheck.value.value.value;
      assert filled.Keys + RECHECK_EXTRA <= again.Keys <==>
        (forall k :: k in filled ==> k in again) && forall k :: k in RECHECK_EXTRA ==> k in again;
    }
  }

  lemma ClearExactly(q: Inputs, gate: Gate, env: Environment)
    ensures SourcesClear(q, gate, env) && LastLookClear(q, gate, env) <==>
      exists revision :: AnsweredClear(q, gate, env, revision)
  {
    FormStillPasses(env);
    if SourceClear(env) {
      var revision := env.source.value.value.0.value;
      assert SourceSays(env, revision) && FreshRevision(env) == Some(revision);
      assert SourcesClear(q, gate, env) && LastLookClear(q, gate, env) ==> AnsweredClear(q, gate, env, revision);
    }
  }

  /**
    Confirm is clicked exactly in a live run whose opening was clear, in which every later question was answered clear,
    the intent record was written and the approval consumed; and the click ends as the page answers it.
  */
  lemma ExpectedClickExactly(q: Inputs, dryRun: bool, ownerGo: bool, priorCleared: bool, gate: Gate, env: Environment,
      click: Click)
    ensures ExpectedClick(q, dryRun, ownerGo, priorCleared, gate, env) == Some(click) <==>
      && !dryRun && OpeningClear(q, false, ownerGo, priorCleared, gate, env)
      && (exists revision :: AnsweredClear(q, gate, env, revision))
      && env.intentWritten && env.consume.ConsumeDone?
      && (env.click == Returned(click) || (env.click.Raised? && click.Unsure?))
  {
    ClearExactly(q, gate, env);
  }

  /** What each outcome of a run means, and that a UUID comes only from the row that was expected, in small letters. */
  lemma OutcomeExactly(click: Option<Click>, q: Inputs, result: RunResult, env: Environment)
    requires Consistent(click, q, result, env)
    ensures var expected := env.found.Returned? && env.found.value.Some? && IsExpected(q, env.found.value.value);
            && (result.outcome.ReadbackVerified? <==> click == Some(Submitted) && expected)
            && (result.outcome.CreatedUnverified? <==> click == Some(Submitted) && !expected)
            && (result.outcome.UncertainSubmit? <==> click == Some(Unsure))
            && (result.outcome.Refused? && result.reason.ConfirmNotClicked? <==> click == Some(NotClickedAtAll))
            && result.uuid == if result.outcome.ReadbackVerified?
                              then Some(Lower(Strip(env.found.value.value.uuid.value))) else None
  {
    ReadbackMatchesExactly(q, env.found);
  }

  // ----- why a run refuses ------------------------------------------------------------------------------------------

  predicate PriorClear(dryRun: bool, ownerGo: bool, priorCleared: bool, env: Environment) {
    dryRun || (ownerGo && env.prior.Some? && !PriorAttemptNeedsReview(env.prior.value, priorCleared))
  }

  /** What a refusal before the filled form tells: everything judged before was in order, and this was not. */
  predicate OpeningRefusedFor(reason: RunReason, q: Inputs, dryRun: bool, ownerGo: bool, priorCleared: bool, gate: Gate,
      env: Environment) {
    var open := gate(q, env.firstFacts, dryRun).None?;
    match reason
    case Closed(problem) => gate(q, env.firstFacts, dryRun) == Some(problem)
    case OwnerGoMissing => open && !dryRun && !ownerGo
    case PriorRecordsInvalid => open && !dryRun && ownerGo && env.prior.None?
    case PriorNeedsReview =>
      open && !dryRun && ownerGo && env.prior.Some? && PriorAttemptNeedsReview(env.prior.value, priorCleared)
    case FormRefused(code) => open && PriorClear(dryRun, ownerGo, priorCleared, env) && env.fill == FillRefused(code)
    case FormFillFailed => open && PriorClear(dryRun, ownerGo, priorCleared, env) && env.fill.FillRaised?
    case FormVerificationFailed =>
      open && PriorClear(dryRun, ownerGo, priorCleared, env) && env.fill.Filled? && !FormVerified(env.fill.fields)
    case _ => false
  }

  predicate SecondGateOpen(q: Inputs, gate: Gate, env: Environment) {
    Moment(env.firstClock).Some? && gate(AtSecondGate(q, env), env.secondFacts, false).None?
  }

  predicate SourceRefusedFor(reason: RunReason, env: Environment) {
    match reason
    case SourceCheckMissing => env.source.None?
    case SourceRecheckUnavailable =>
      env.source.Some? && (FreshRevision(env).GetOr("") == "" || env.source.value.value.1.None?)
    case SourceUuidPresent =>
      env.source.Some? && FreshRevision(env).GetOr("") != "" && env.source.value.value.1.Some? && !SourceClear(env)
    case _ => false
  }

  /** The same for the second gate, the duplicate check and the re-read. */
  predicate SourcesRefusedFor(reason: RunReason, q: Inputs, gate: Gate, env: Environment) {
    match reason
    case ClockUnavailable => Moment(env.firstClock).None?
    case Closed(problem) =>
      Moment(env.firstClock).Some? && gate(AtSecondGate(q, env), env.secondFacts, false) == Some(problem)
    case DuplicateCheckMissing => SecondGateOpen(q, gate, env) && env.duplicate.None?
    case DuplicateCheckUnavailable => SecondGateOpen(q, gate, env) && env.duplicate == Some(Raised)
    case DuplicateRefused(code) => SecondGateOpen(q, gate, env) && env.duplicate == Some(Returned(Some(code)))
    case _ =>
      SecondGateOpen(q, gate, env) && env.duplicate == Some(Returned(None)) && SourceRefusedFor(reason, env)
  }

  predicate LastGateOpen(q: Inputs, gate: Gate, env: Environment) {
    Moment(env.secondClock).Some? && gate(AtLastGate(q, env), env.lastFacts, false).None?
  }

  predicate RecheckVerified(env: Environment) {
    env.recheck.Some? && env.recheck.value.Returned? && FormVerified(env.recheck.value.value)
  }

  /** And for the last gate and the form re-check; one that covers less than the fill counts as missing. */
  predicate LastLookRefusedFor(reason: RunReason, q: Inputs, gate: Gate, env: Environment) {
    match reason
    case ClockUnavailable => Moment(env.secondClock).None?
    case Closed(problem) =>
      Moment(env.secondClock).Some? && gate(AtLastGate(q, env), env.lastFacts, false) == Some(problem)
    case FormRecheckMissing =>
      LastGateOpen(q, gate, env) && (env.recheck.None? || (RecheckVerified(env) && !FormStillVerified(env)))
    case FormChanged => LastGateOpen(q, gate, env) && env.recheck.Some? && !RecheckVerified(env)
    case _ => false
  }

  /** And from the intent record to the click. */
  predicate CommitRefusedFor(reason: RunReason, env: Environment) {
    match reason
    case RecordWriteFailed => !env.intentWritten
    case ConsumeFailed => env.intentWritten && env.consume.ConsumeRaised?
    case ConsumeRefused(problem) => env.intentWritten && env.consume == ConsumeNo(problem)
    case ConfirmNotClicked => ClickAfterChecks(env) == Some(NotClickedAtAll)
    case _ => false
  }

  /** Why an attempt with a filled form refuses. */
  predicate LiveRefusedFor(reason: RunReason, q: Inputs, gate: Gate, env: Environment) {
    if !SourcesClear(q, gate, env) then SourcesRefusedFor(reason, q, gate, env)
    else if !LastLookClear(q, gate, env) then LastLookRefusedFor(reason, q, gate, env)
    else CommitRefusedFor(reason, env)
  }

  predicate RunRefusedFor(reason: RunReason, q: Inputs, dryRun: bool, ownerGo: bool, priorCleared: bool, gate: Gate,
      env: Environment) {
    if !OpeningClear(q, dryRun, ownerGo, priorCleared, gate, env) then
      OpeningRefusedFor(reason, q, dryRun, ownerGo, priorCleared, gate, env)
    else !dryRun && LiveRefusedFor(reason, q, gate, env)
  }

  method Opening(q: Inputs, dryRun: bool, ownerGo: bool, priorCleared: bool, gate: Gate, env: Environment)
    returns (trace: seq<Effect>, refusal: Option<RunReason>)
    ensures Faithful(trace, q, gate, dryRun, env) && Harmless(trace) && Follow(trace).Some?
      && Early(Follow(trace).value)
    ensures refusal.Some? ==> !refusal.value.ConfirmNotClicked?
    ensures refusal.Some? ==> OpeningRefusedFor(refusal.value, q, dryRun, ownerGo, priorCleared, gate, env)
    ensures refusal.None? ==> Follow(trace) == Some(FormFilled)
    ensures refusal.None? <==> OpeningClear(q, dryRun, ownerGo, priorCleared, gate, env)
  {
    var verdict := gate(q, env.firstFacts, dryRun);
    Log([], Judged(q, env.firstFacts, verdict), q, gate, dryRun, env);
    trace := [] + [Judged(q, env.firstFacts, verdict)];
    if verdict.Some? { return trace, Some(Closed(verdict.value)); }
    if !dryRun {
      if !ownerGo { return trace, Some(OwnerGoMissing); }
      if env.prior.None? { return trace, Some(PriorRecordsInvalid); }
      if PriorAttemptNeedsReview(env.prior.value, priorCleared) { return trace, Some(PriorNeedsReview); }
    }
    match env.fill {
      case FillRefused(code) => return trace, Some(FormRefused(code));
      case FillRaised => return trace, Some(FormFillFailed);
      case Filled(fields) =>
        if !FormVerified(fields) { return trace, Some(FormVerificationFailed); }
    }
    Log(trace, FilledForm, q, gate, dryRun, env);
    trace := trace + [FilledForm];
    return trace, None;
  }

  method ReadSourceAgain(env: Environment) returns (refusal: Option<RunReason>)
    ensures refusal.None? <==> SourceClear(env)
    ensures refusal.Some? ==> SourceRefusedFor(refusal.value, env)
  {
    if env.source.None? { return Some(SourceCheckMissing); }
    if env.source.value.Raised? { return Some(SourceRecheckUnavailable); }
    var revision, uuidPresent := env.source.value.value.0.GetOr(""), env.source.value.value.1;
    if revision == "" || uuidPresent != Some(false) {
      return Some(if uuidPresent.None? || revision == "" then SourceRecheckUnavailable else SourceUuidPresent);
    }
    return None;
  }

  method RecheckSources(q: Inputs, gate: Gate, env: Environment, begun: seq<Effect>)
    returns (trace: seq<Effect>, refusal: Option<RunReason>)
    requires Faithful(begun, q, gate, false, env) && Harmless(begun) && Follow(begun) == Some(FormFilled)
    ensures Faithful(trace, q, gate, false, env) && Harmless(trace) && Follow(trace).Some? && Early(Follow(trace).value)
    ensures refusal.Some? ==> !refusal.value.ConfirmNotClicked?
    ensures refusal.Some? ==> SourcesRefusedFor(refusal.value, q, gate, env)
    ensures refusal.None? ==> Follow(trace) == Some(SourceRead)
    ensures refusal.None? <==> SourcesClear(q, gate, env)
  {
    trace := begun;
    if Moment(env.firstClock).None? { return trace, Some(ClockUnavailable); }
    var second := AtSecondGate(q, env);
    var verdict := gate(second, env.secondFacts, false);
    Log(trace, Judged(second, env.secondFacts, verdict), q, gate, false, env);
    trace := trace + [Judged(second, env.secondFacts, verdict)];
    if verdict.Some? { return trace, Some(Closed(verdict.value)); }

    if env.duplicate.None? { return trace, Some(DuplicateCheckMissing); }
    if env.duplicate.value.Raised? { return trace, Some(DuplicateCheckUnavailable); }
    if env.duplicate.value.value.Some? { return trace, Some(DuplicateRefused(env.duplicate.value.value.value)); }
    Log(trace, CheckedDuplicate, q, gate, false, env);
    trace := trace + [CheckedDuplicate];

    refusal := ReadSourceAgain(env);
    if refusal.Some? { return; }
    Log(trace, CheckedSource, q, gate, false, env);
    trace := trace + [CheckedSource];
    return trace, None;
  }

  method LastLook(q: Inputs, gate: Gate, env: Environment, begun: seq<Effect>)
    returns (trace: seq<Effect>, refusal: Option<RunReason>)
    requires env.fill.Filled? && env.fill.fields.Some?
    requires Faithful(begun, q, gate, false, env) && Harmless(begun) && Follow(begun) == Some(SourceRead)
    ensures Faithful(trace, q, gate, false, env) && Harmless(trace) && Follow(trace).Some?
    ensures refusal.Some? ==>
      !refusal.value.ConfirmNotClicked? && (Early(Follow(trace).value) || Follow(trace).value.GatedLast?)
    ensures refusal.Some? ==> LastLookRefusedFor(refusal.value, q, gate, env)
    ensures refusal.None? ==> Follow(trace) == Some(FormRechecked(AtLastGate(q, env)))
    ensures refusal.None? <==> LastLookClear(q, gate, env)
  {
    trace := begun;
    if Moment(env.secondClock).None? { return trace, Some(ClockUnavailable); }
    var last := AtLastGate(q, env);
    var verdict := gate(last, env.lastFacts, false);
    Log(trace, Judged(last, env.lastFacts, verdict), q, gate, false, env);
    trace := trace + [Judged(last, env.lastFacts, verdict)];
    if verdict.Some? { return trace, Some(Closed(verdict.value)); }

    if env.recheck.None? { return trace, Some(FormRecheckMissing); }
    if env.recheck.value.Raised? || !FormVerified(env.recheck.value.value) { return trace, Some(FormChanged); }
    if !RecheckComplete(env.recheck.value.value.value, env.fill.fields.value) {
      return trace, Some(FormRecheckMissing);
    }
    Log(trace, RecheckedForm, q, gate, false, env);
    trace := trace + [RecheckedForm];
    return trace, None;
  }

  /** From the intent record to the click, in this order, stopping at the first that fails. */
  method Submit(q: Inputs, gate: Gate, env: Environment, checked: seq<Effect>)
    returns (trace: seq<Effect>, click: Option<Click>, reason: RunReason)
    requires Faithful(checked, q, gate, false, env) && Harmless(checked)
    requires Follow(checked) == Some(FormRechecked(AtLastGate(q, env)))
    ensures Faithful(trace, q, gate, false, env) && OnlyClick(trace, click) && Follow(trace).Some?
    ensures click == ClickAfterChecks(env)
    ensures click.Some? ==> Follow(trace) == Some(AfterClick(click.value))
    ensures click.None? ==> Follow(trace).value.FormRechecked? || Follow(trace).value.Intended?
    ensures click.None? ==>
      reason == if !env.intentWritten then RecordWriteFailed
                else if env.consume.ConsumeRaised? then ConsumeFailed
                else ConsumeRefused(env.consume.reason)
  {
    NoClickYet(checked);
    var last := AtLastGate(q, env);
    Log(checked, WroteIntent(IntentEntry(last), env.intentWritten), q, gate, false, env);
    trace := checked + [WroteIntent(IntentEntry(last), env.intentWritten)];
    if !env.intentWritten { return trace, None, RecordWriteFailed; }
    var consumed := ConsumedApproval(ConsumeOf(last), env.consume);
    Log(trace, consumed, q, gate, false, env);
    trace := trace + [consumed];
    if env.consume.ConsumeRaised? { return trace, None, ConsumeFailed; }
    if env.consume.ConsumeNo? { return trace, None, ConsumeRefused(env.consume.reason); }
    Log(trace, ClickedConfirm(ClickOf(env)), q, gate, false, env);
    trace := trace + [ClickedConfirm(ClickOf(env))];
    return trace, Some(ClickOf(env)), NoReason;
  }

  method JudgeOutcome(click: Click, problem: Option<ReadbackReason>, env: Environment) returns (result: RunResult)
    requires click.Submitted? && problem.None? ==>
      env.found.Returned? && env.found.value.Some? && NormaliseUuid(env.found.value.value.uuid).Some?
    ensures ConsistentWith(Some(click), problem, result, env.found)
    ensures result.recordWritten == env.finalWritten
    ensures result.outcome.Refused? ==> result.reason.ConfirmNotClicked?
    ensures Advance(AfterClick(click), WroteFinal(result.outcome, result.reason, env.finalWritten)) == Some(Finished)
  {
    if click.NotClickedAtAll? { return RunResult(Refused, ConfirmNotClicked, env.finalWritten, None); }
    if click.Unsure? { return RunResult(UncertainSubmit, SubmitUncertain, env.finalWritten, None); }
    if problem.Some? { return RunResult(CreatedUnverified, Readback(problem.value), env.finalWritten, None); }
    return RunResult(ReadbackVerified, NoReason, env.finalWritten, NormaliseUuid(env.found.value.value.uuid));
  }

  /** What a click amounts to once the tenant was read back. */
  method JudgeClick(q: Inputs, env: Environment, click: Click) returns (result: RunResult)
    ensures Consistent(Some(click), q, result, env)
    ensures result.recordWritten == env.finalWritten
    ensures result.outcome.Refused? ==> result.reason.ConfirmNotClicked?
    ensures Advance(AfterClick(click), WroteFinal(result.outcome, result.reason, env.finalWritten)) == Some(Finished)
  {
    ReadbackMatchesExactly(q, env.found);
    result := JudgeOutcome(click, CompareReadback(q, env.found), env);
  }

  /** After the click: read back only after a submit, judge, and write the final record. */
  method Conclude(q: Inputs, gate: Gate, env: Environment, clicked: seq<Effect>, click: Click)
    returns (trace: seq<Effect>, result: RunResult)
    requires Faithful(clicked, q, gate, false, env) && OnlyClick(clicked, Some(click))
    requires Follow(clicked) == Some(AfterClick(click))
    ensures Faithful(trace, q, gate, false, env) && OnlyClick(trace, Some(click)) && Follow(trace) == Some(Finished)
    ensures trace != [] && trace[|trace| - 1] == WroteFinal(result.outcome, result.reason, env.finalWritten)
    ensures result.recordWritten == env.finalWritten && !result.outcome.DryRunPassed?
    ensures result.outcome.Refused? ==> result.reason.ConfirmNotClicked?
    ensures Consistent(Some(click), q, result, env)
  {
    trace := clicked;
    if click.Submitted? {
      Log(trace, ReadBack, q, gate, false, env);
      trace := trace + [ReadBack];
    }
    result := JudgeClick(q, env, click);
    Log(trace, WroteFinal(result.outcome, result.reason, env.finalWritten), q, gate, false, env);
    trace := trace + [WroteFinal(result.outcome, result.reason, env.finalWritten)];
  }

  method Finish(q: Inputs, dryRun: bool, gate: Gate, env: Environment, begun: seq<Effect>, outcome: Outcome,
      reason: RunReason)
    returns (trace: seq<Effect>, result: RunResult)
    requires Faithful(begun, q, gate, dryRun, env) && Follow(begun).Some? && OnlyClick(begun, None)
    requires Advance(Follow(begun).value, WroteFinal(outcome, reason, env.finalWritten)) == Some(Finished)
    requires outcome.DryRunPassed? || (outcome.Refused? && !reason.ConfirmNotClicked?)
    ensures trace == begun + [WroteFinal(outcome, reason, env.finalWritten)]
    ensures Faithful(trace, q, gate, dryRun, env) && Follow(trace) == Some(Finished) && OnlyClick(trace, None)
    ensures Harmless(begun) ==> Harmless(trace)
    ensures result == RunResult(outcome, reason, env.finalWritten, None) && Consistent(None, q, result, env)
  {
    Log(begun, WroteFinal(outcome, reason, env.finalWritten), q, gate, dryRun, env);
    trace := begun + [WroteFinal(outcome, reason, env.finalWritten)];
    result := RunResult(outcome, reason, env.finalWritten, None);
  }

  /** The click once every check passed. */
  function ClickAfterChecks(env: Environment): Option<Click> {
    if env.intentWritten && env.consume.ConsumeDone? then Some(ClickOf(env)) else None
  }

  method Commit(q: Inputs, gate: Gate, env: Environment, checked: seq<Effect>)
      returns (trace: seq<Effect>, result: RunResult)
    requires Faithful(checked, q, gate, false, env) && Harmless(checked)
    requires Follow(checked) == Some(FormRechecked(AtLastGate(q, env)))
    ensures Follow(trace) == Some(Finished) && Faithful(trace, q, gate, false, env)
    ensures trace != [] && trace[|trace| - 1] == WroteFinal(result.outcome, result.reason, env.finalWritten)
    ensures result.recordWritten == env.finalWritten && !result.outcome.DryRunPassed?
    ensures result.outcome.Refused? ==> CommitRefusedFor(result.reason, env)
    ensures OnlyClick(trace, ClickAfterChecks(env)) && Consistent(ClickAfterChecks(env), q, result, env)
  {
    var click, reason;
    trace, click, reason := Submit(q, gate, env, checked);
    if click.Some? {
      trace, result := Conclude(q, gate, env, trace, click.value);
    } else {
      trace, result := Finish(q, false, gate, env, trace, Refused, reason);
    }
  }

  /** All checks between the filled form and the intent record. */
  method CheckAgain(q: Inputs, gate: Gate, env: Environment, begun: seq<Effect>)
    returns (trace: seq<Effect>, refusal: Option<RunReason>)
    requires env.fill.Filled? && env.fill.fields.Some?
    requires Faithful(begun, q, gate, false, env) && Harmless(begun) && Follow(begun) == Some(FormFilled)
    ensures Faithful(trace, q, gate, false, env) && Harmless(trace) && Follow(trace).Some?
    ensures refusal.Some? ==>
      !refusal.value.ConfirmNotClicked? && (Early(Follow(trace).value) || Follow(trace).value.GatedLast?)
    ensures refusal.Some? ==> LiveRefusedFor(refusal.value, q, gate, env)
    ensures refusal.None? ==> Follow(trace) == Some(FormRechecked(AtLastGate(q, env)))
    ensures refusal.None? <==> SourcesClear(q, gate, env) && LastLookClear(q, gate, env)
  {
    trace, refusal := RecheckSources(q, gate, env, begun);
    if refusal.Some? { return; }
    trace, refusal := LastLook(q, gate, env, trace);
  }

  /** A live attempt from the filled form to its final record. */
  method GoLive(q: Inputs, gate: Gate, env: Environment, begun: seq<Effect>)
    returns (trace: seq<Effect>, result: RunResult)
    requires env.fill.Filled? && env.fill.fields.Some?
    requires Faithful(begun, q, gate, false, env) && Harmless(begun) && Follow(begun) == Some(FormFilled)
    ensures Follow(trace) == Some(Finished) && Faithful(trace, q, gate, false, env)
    ensures trace != [] && trace[|trace| - 1] == WroteFinal(result.outcome, result.reason, env.finalWritten)
    ensures result.recordWritten == env.finalWritten && !result.outcome.DryRunPassed?
    ensures result.outcome.Refused? ==> LiveRefusedFor(result.reason, q, gate, env)
    ensures OnlyClick(trace, ClickAfterFill(q, gate, env)) && Consistent(ClickAfterFill(q, gate, env), q, result, env)
  {
    var refusal;
    trace, refusal := CheckAgain(q, gate, env, begun);
    if refusal.Some? {
      NoClickYet(trace);
      trace, result := Finish(q, false, gate, env, trace, Refused, refusal.value);
    } else {
      trace, result := Commit(q, gate, env, trace);
    }
  }

  /**
    One whole run, for every behaviour of the injected calls. It ends with the final record; a dry run has no effect
    outside the form; Confirm is clicked exactly when nothing stood against it; and the outcome says what happened.
  */
  method Run(q: Inputs, dryRun: bool, ownerGo: bool, priorCleared: bool, gate: Gate, env: Environment)
    returns (trace: seq<Effect>, result: RunResult)
    ensures Follow(trace) == Some(Finished) && Faithful(trace, q, gate, dryRun, env)
    ensures trace != [] && trace[|trace| - 1] == WroteFinal(result.outcome, result.reason, env.finalWritten)
    ensures result.recordWritten == env.finalWritten
    ensures dryRun ==> Harmless(trace)
    ensures result.outcome.DryRunPassed? <==> dryRun && OpeningClear(q, true, ownerGo, priorCleared, gate, env)
    ensures result.outcome.Refused? ==> RunRefusedFor(result.reason, q, dryRun, ownerGo, priorCleared, gate, env)
    ensures OnlyClick(trace, ExpectedClick(q, dryRun, ownerGo, priorCleared, gate, env))
    ensures Consistent(ExpectedClick(q, dryRun, ownerGo, priorCleared, gate, env), q, result, env)
  {
    var refusal;
    trace, refusal := Opening(q, dryRun, ownerGo, priorCleared, gate, env);
    NoClickYet(trace);
    if refusal.Some? {
      trace, result := Finish(q, dryRun, gate, env, trace, Refused, refusal.value);
    } else if dryRun {
      trace, result := Finish(q, true, gate, env, trace, DryRunPassed, NoReason);
    } else {
      trace, result := GoLive(q, gate, env, trace);
    }
  }
}
