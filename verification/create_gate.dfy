/** The ordered gate in front of a create: the first closed condition names the refusal, in a fixed order. */
module CreateGate {
  import ApprovalLaws
  import opened Wrappers
  import opened Text
  import opened Approvals
  import opened Domains

  const CLONE_MAX_AGE := 6 * 60 * 60 * SECOND

  /** What a run needs, gathered before it starts. None stands for a value of another type than expected. */
  datatype Inputs = Inputs(
    co: string, route: Route, approvalRef: string,
    sourceRevision: string, sourceRevisionNow: Option<string>, now: int, sessionRef: Option<string>,
    emailDomains: Option<seq<string>>, sourceConsistent: bool, priorUuid: Option<string>,
    cloneCollectedAt: Option<int>, cloneMatches: bool, duplicateFound: bool, livePaidTenants: Option<int>,
    timingAllowed: bool, csmRequested: bool, sessionsReady: bool, schemaOk: bool,
    tenantName: string, expectedDomains: Option<seq<string>>, expectedAccountId: string, precheck: Option<string>)

  /** What the gate reads from outside: the production target's own refusal at that moment, and the approval file. */
  datatype Facts = Facts(locked: Option<string>, approvals: StateFile)

  datatype GateReason =
    | ProductionLocked(code: string)
    | ApprovalRefMismatch
    | NotApproved(reason: Reason)
    | RouteNotCeOnlyNew
    | EmailDomainNotSingle
    | SourceMismatch
    | PriorUuidPresent
    | CloneMissing | CloneStale | CloneMismatch
    | DuplicateInProduction
    | MultipleLivePaidTenants
    | TimingWindowNotMet
    | SessionsNotReady
    | SchemaUnexpected
    | Precheck(code: string)

  function Plain(domain: string): string { Lower(Strip(domain)) }

  /** One valid domain; with `many`, one or more valid ones without a repeat. */
  predicate DomainsFit(domains: Option<seq<string>>, many: bool) {
    && domains.Some? && domains.value != [] && (many || |domains.value| == 1)
    && (forall i :: 0 <= i < |domains.value| ==> DomainShape(Plain(domains.value[i])))
    && (forall i, j :: 0 <= i < j < |domains.value| ==> Plain(domains.value[i]) != Plain(domains.value[j]))
  }

  function CloneProblem(q: Inputs): Option<GateReason> {
    if q.cloneCollectedAt.None? then Some(CloneMissing)
    else if !(0 <= q.now - q.cloneCollectedAt.value <= CLONE_MAX_AGE) then Some(CloneStale)
    else if !q.cloneMatches then Some(CloneMismatch)
    else None
  }

  function Check(file: StateFile, ref: string, co: string, route: Route, revision: string, now: int): Option<Reason> {
    var loaded := Load(file);
    if loaded.None? then Some(ApprovalUnreadable)
    else Problem(Lookup(loaded.value, ref), co, route, revision, now, None, false)
  }

  function TenantNameProblem(file: StateFile, ref: string, co: string, route: Route, name: string): Option<Reason> {
    var loaded := Load(file);
    if loaded.None? then Some(ApprovalUnreadable)
    else if ref !in loaded.value then Some(ApprovalMissing)
    else if loaded.value[ref].co != co then Some(ApprovalCoMismatch)
    else if route != Case3 || loaded.value[ref].route != Case3 then Some(ApprovalRouteMismatch)
    else NameProblem(loaded.value[ref], Some(name))
  }

  function Specific(q: Inputs, generic: GateReason): GateReason {
    if q.precheck.Some? then Precheck(q.precheck.value) else generic
  }

  function EvaluateGate(q: Inputs, facts: Facts, dryRun: bool, case3Create: bool): Option<GateReason> {
    if facts.locked.Some? then Some(ProductionLocked(facts.locked.value))
    else if q.sessionRef != Some(q.approvalRef) then Some(ApprovalRefMismatch)
    else if q.sourceRevisionNow != Some(q.sourceRevision) || q.sourceRevision == "" then
      Some(NotApproved(ApprovalRevisionDrift))
    else
      var problem := Check(facts.approvals, q.approvalRef, q.co, q.route, q.sourceRevision, q.now);
      if problem.Some? then Some(NotApproved(problem.value))
      else
        var bound := if case3Create && q.route == Case3
                     then TenantNameProblem(facts.approvals, q.approvalRef, q.co, q.route, q.tenantName) else None;
        if bound.Some? then Some(NotApproved(bound.value)) else EvaluateFacts(q, dryRun || case3Create)
  }

  function EvaluateFacts(q: Inputs, case3Allowed: bool): Option<GateReason> {
    if !(q.route == CeOnly || (case3Allowed && q.route == Case3)) then Some(RouteNotCeOnlyNew)
    else if !DomainsFit(q.emailDomains, q.route == CeOnly) then Some(EmailDomainNotSingle)
    else if !q.sourceConsistent then Some(SourceMismatch)
    else if q.priorUuid.GetOr("") != "" then Some(PriorUuidPresent)
    else if CloneProblem(q).Some? then CloneProblem(q)
    else if q.duplicateFound then Some(Specific(q, DuplicateInProduction))
    else if !(q.livePaidTenants == Some(0) || q.livePaidTenants == Some(1)) then Some(MultipleLivePaidTenants)
    else if !q.timingAllowed && !q.csmRequested then Some(TimingWindowNotMet)
    else if !q.sessionsReady then Some(Specific(q, SessionsNotReady))
    else if !q.schemaOk then Some(SchemaUnexpected)
    else None
  }

  /** The name a create hands to the consume: only a Case 3 create names its tenant. */
  function ConsumeName(q: Inputs): Option<string> {
    if q.route == Case3 then Some(q.tenantName) else None
  }

  /**
    A live gate that opens and the consume that follows judge one approval file the same way: at the same time and
    revision the consume accepts, unless the file changed in between.
  */
  lemma OpenGateConsumes(q: Inputs, facts: Facts, case3Create: bool)
    requires EvaluateGate(q, facts, false, case3Create).None?
    ensures Load(facts.approvals).Some?
    ensures Apply(Load(facts.approvals).value,
                  Consume(q.approvalRef, q.co, q.route, q.sourceRevision, q.now, ConsumeName(q))).Some?
    ensures q.sourceRevisionNow == Some(q.sourceRevision) && (q.route == CeOnly || (case3Create && q.route == Case3))
  {
  }

  /** And an approval the consume would refuse closes the gate, for every input and whatever else is in order. */
  lemma UnusableApprovalClosesGate(q: Inputs, facts: Facts, case3Create: bool)
    requires Load(facts.approvals).None?
          || Apply(Load(facts.approvals).value,
                   Consume(q.approvalRef, q.co, q.route, q.sourceRevision, q.now, ConsumeName(q))).None?
    ensures EvaluateGate(q, facts, false, case3Create).Some?
  {
    if EvaluateGate(q, facts, false, case3Create).None? { OpenGateConsumes(q, facts, case3Create); }
  }

  /**
    The approval is on file, valid for this CO, route and revision at the gate's time, and a Case 3 create names its
    tenant.
  */
  predicate Approved(q: Inputs, file: StateFile, case3Create: bool) {
    && Load(file).Some? && q.approvalRef in Load(file).value
    && var a := Load(file).value[q.approvalRef];
       UsableAt(a, q.now) && a.co == q.co && a.route == q.route && ApprovalLaws.ScopeIsOf(a.scope, q.route)
         && a.revision == q.sourceRevision
       && (case3Create && q.route == Case3 ==> a.tenantName == Some(q.tenantName) && TenantNameShape(q.tenantName))
  }

  /** Domain names all, but for white space around them and the case of ASCII letters, and no two the same. */
  predicate DistinctDomains(domains: seq<string>) {
    && (forall i :: 0 <= i < |domains| ==> DomainShape(Lower(Strip(domains[i]))))
    && (forall i, j :: 0 <= i < j < |domains| ==> Lower(Strip(domains[i])) != Lower(Strip(domains[j])))
  }

  predicate FactsClear(q: Inputs, case3Allowed: bool) {
    && (q.route == CeOnly || (case3Allowed && q.route == Case3))
    && q.emailDomains.Some? && DistinctDomains(q.emailDomains.value)
    && (|q.emailDomains.value| == 1 || (|q.emailDomains.value| > 1 && q.route == CeOnly))
    && q.sourceConsistent && (q.priorUuid.None? || q.priorUuid.value == "")
    && q.cloneCollectedAt.Some? && q.cloneCollectedAt.value <= q.now <= q.cloneCollectedAt.value + 6 * 3600 * 1_000_000
    && q.cloneMatches && !q.duplicateFound && (q.livePaidTenants == Some(0) || q.livePaidTenants == Some(1))
    && (q.timingAllowed || q.csmRequested) && q.sessionsReady && q.schemaOk
  }

  lemma DomainsFitExactly(domains: Option<seq<string>>, many: bool)
    ensures DomainsFit(domains, many) <==>
      domains.Some? && DistinctDomains(domains.value)
      && (|domains.value| == 1 || (|domains.value| > 1 && many))
  {
  }

  lemma FactsClearExactly(q: Inputs, case3Allowed: bool)
    ensures EvaluateFacts(q, case3Allowed).None? <==> FactsClear(q, case3Allowed)
  {
    DomainsFitExactly(q.emailDomains, q.route == CeOnly);
  }

  lemma ApprovedExactly(q: Inputs, file: StateFile, case3Create: bool)
    ensures Approved(q, file, case3Create) <==>
      Check(file, q.approvalRef, q.co, q.route, q.sourceRevision, q.now).None?
      && (case3Create && q.route == Case3 ==> TenantNameProblem(file, q.approvalRef, q.co, q.route, q.tenantName).None?)
  {
  }

  /** The gate opens exactly when every single condition holds; none of them hides another. */
  lemma GateOpensExactly(q: Inputs, facts: Facts, dryRun: bool, case3Create: bool)
    ensures EvaluateGate(q, facts, dryRun, case3Create).None? <==>
      facts.locked.None? && q.sessionRef == Some(q.approvalRef) && q.sourceRevision != ""
        && q.sourceRevisionNow == Some(q.sourceRevision)
      && Approved(q, facts.approvals, case3Create) && FactsClear(q, dryRun || case3Create)
  {
    FactsClearExactly(q, dryRun || case3Create);
    ApprovedExactly(q, facts.approvals, case3Create);
  }

  // ----- which reason is told ---------------------------------------------------------------------------------------

  /** Why the approval on file is refused, if it is; a Case 3 create also asks for the tenant's name. */
  function ApprovalProblem(q: Inputs, file: StateFile, case3Create: bool): Option<Reason> {
    match Load(file)
    case None => Some(ApprovalUnreadable)
    case Some(m) =>
      var name := if case3Create && q.route == Case3 then Some(q.tenantName) else None;
      Problem(Lookup(m, q.approvalRef), q.co, q.route, q.sourceRevision, q.now, name, false)
  }

  /** What each refusal of the gate says stands against the create. */
  predicate Objects(reason: GateReason, q: Inputs, locked: Option<string>, approval: Option<Reason>,
      case3Allowed: bool) {
    match reason
    case ProductionLocked(code) => locked == Some(code)
    case ApprovalRefMismatch => q.sessionRef != Some(q.approvalRef)
    case NotApproved(problem) =>
      if q.sourceRevisionNow == Some(q.sourceRevision) && q.sourceRevision != "" then approval == Some(problem)
      else problem == ApprovalRevisionDrift
    case RouteNotCeOnlyNew => q.route != CeOnly && !(case3Allowed && q.route == Case3)
    case EmailDomainNotSingle =>
      q.emailDomains.None? || !DistinctDomains(q.emailDomains.value)
      || (|q.emailDomains.value| != 1 && (q.emailDomains.value == [] || q.route != CeOnly))
    case SourceMismatch => !q.sourceConsistent
    case PriorUuidPresent => q.priorUuid.Some? && q.priorUuid.value != ""
    case CloneMissing => q.cloneCollectedAt.None?
    case CloneStale =>
      q.cloneCollectedAt.Some?
      && (q.cloneCollectedAt.value > q.now || q.now - q.cloneCollectedAt.value > 6 * 3600 * 1_000_000)
    case CloneMismatch => !q.cloneMatches
    case DuplicateInProduction => q.duplicateFound && q.precheck.None?
    case MultipleLivePaidTenants => q.livePaidTenants != Some(0) && q.livePaidTenants != Some(1)
    case TimingWindowNotMet => !q.timingAllowed && !q.csmRequested
    case SessionsNotReady => !q.sessionsReady && q.precheck.None?
    case SchemaUnexpected => !q.schemaOk
    case Precheck(code) => q.precheck == Some(code) && (q.duplicateFound || !q.sessionsReady)
  }

  /** The order in which they are looked for; a precheck's own code stands where the finding it explains stands. */
  function ObjectionOrder(reason: GateReason, q: Inputs): nat {
    match reason
    case ProductionLocked(_) => 0 case ApprovalRefMismatch => 1 case NotApproved(_) => 2 case RouteNotCeOnlyNew => 3
    case EmailDomainNotSingle => 4 case SourceMismatch => 5 case PriorUuidPresent => 6 case CloneMissing => 7
    case CloneStale => 8 case CloneMismatch => 9 case DuplicateInProduction => 10 case MultipleLivePaidTenants => 11
    case TimingWindowNotMet => 12 case SessionsNotReady => 13 case SchemaUnexpected => 14
    case Precheck(_) => if q.duplicateFound then 10 else 13
  }

  lemma ApprovalInParts(q: Inputs, file: StateFile, case3Create: bool)
    ensures ApprovalProblem(q, file, case3Create) ==
      var problem := Check(file, q.approvalRef, q.co, q.route, q.sourceRevision, q.now);
      if problem.Some? then problem
      else if case3Create && q.route == Case3
      then TenantNameProblem(file, q.approvalRef, q.co, q.route, q.tenantName) else None
  {
  }

  /** The gate in its two halves: what comes before the facts of the order, and these. */
  function Halves(q: Inputs, locked: Option<string>, approval: Option<Reason>, facts: Option<GateReason>)
      : Option<GateReason> {
    if locked.Some? then Some(ProductionLocked(locked.value))
    else if q.sessionRef != Some(q.approvalRef) then Some(ApprovalRefMismatch)
    else if q.sourceRevisionNow != Some(q.sourceRevision) || q.sourceRevision == "" then
      Some(NotApproved(ApprovalRevisionDrift))
    else if approval.Some? then Some(NotApproved(approval.value)) else facts
  }

  lemma GateInHalves(q: Inputs, facts: Facts, dryRun: bool, case3Create: bool)
    ensures EvaluateGate(q, facts, dryRun, case3Create)
         == Halves(q, facts.locked, ApprovalProblem(q, facts.approvals, case3Create),
           EvaluateFacts(q, dryRun || case3Create))
  {
    ApprovalInParts(q, facts.approvals, case3Create);
  }

  lemma FactsObject(q: Inputs, locked: Option<string>, approval: Option<Reason>, case3Allowed: bool, told: GateReason)
    requires EvaluateFacts(q, case3Allowed) == Some(told)
    ensures Objects(told, q, locked, approval, case3Allowed) && ObjectionOrder(told, q) >= 3
  {
    DomainsFitExactly(q.emailDomains, q.route == CeOnly);
  }

  lemma FactsInOrder(q: Inputs, locked: Option<string>, approval: Option<Reason>, case3Allowed: bool, told: GateReason,
      other: GateReason)
    requires EvaluateFacts(q, case3Allowed) == Some(told)
    requires Objects(other, q, locked, approval, case3Allowed) && ObjectionOrder(other, q) >= 3
    ensures ObjectionOrder(told, q) <= ObjectionOrder(other, q)
  {
    DomainsFitExactly(q.emailDomains, q.route == CeOnly);
  }

  lemma HalvesObject(q: Inputs, locked: Option<string>, approval: Option<Reason>, case3Allowed: bool, told: GateReason)
    requires Halves(q, locked, approval, EvaluateFacts(q, case3Allowed)) == Some(told)
    ensures Objects(told, q, locked, approval, case3Allowed)
  {
    if EvaluateFacts(q, case3Allowed) == Some(told) { FactsObject(q, locked, approval, case3Allowed, told); }
  }

  lemma HalvesInOrder(q: Inputs, locked: Option<string>, approval: Option<Reason>, case3Allowed: bool, told: GateReason,
      other: GateReason)
    requires Halves(q, locked, approval, EvaluateFacts(q, case3Allowed)) == Some(told)
    requires Objects(other, q, locked, approval, case3Allowed)
    ensures ObjectionOrder(told, q) <= ObjectionOrder(other, q)
  {
    if ObjectionOrder(other, q) >= 3 && EvaluateFacts(q, case3Allowed) == Some(told) {
      FactsInOrder(q, locked, approval, case3Allowed, told, other);
    }
  }

  /** A closed gate tells the first thing, in one fixed order, that stands against the create; it closes only then. */
  lemma GateToldFirst(q: Inputs, facts: Facts, dryRun: bool, case3Create: bool, told: GateReason)
    requires EvaluateGate(q, facts, dryRun, case3Create) == Some(told)
    ensures var approval := ApprovalProblem(q, facts.approvals, case3Create);
            && Objects(told, q, facts.locked, approval, dryRun || case3Create)
            && forall other :: Objects(other, q, facts.locked, approval, dryRun || case3Create) ==>
                 ObjectionOrder(told, q) <= ObjectionOrder(other, q)
  {
    GateInHalves(q, facts, dryRun, case3Create);
    var approval := ApprovalProblem(q, facts.approvals, case3Create);
    HalvesObject(q, facts.locked, approval, dryRun || case3Create, told);
    forall other | Objects(other, q, facts.locked, approval, dryRun || case3Create)
      ensures ObjectionOrder(told, q) <= ObjectionOrder(other, q)
    {
      HalvesInOrder(q, facts.locked, approval, dryRun || case3Create, told, other);
    }
  }
}
