/**
  The one-use create approvals: a file of records keyed by approval reference, changed only by `Issue`, `Consume` and
  `Revoke`. Times are microseconds; the file keeps whole seconds.
*/
module Approvals {
  import opened Wrappers
  import opened Text

  const SECOND := 1_000_000
  const MAX_LIFETIME := 31 * 24 * 60 * 60 * SECOND

  datatype Route = CeOnly | Case3 | SurfaceRenewal | OtherRoute(code: string)
  datatype Scope = CeOnlyScope | Case3Scope | SurfaceRenewalScope | OtherScope(code: string)

  /** A stored time: a whole second, or text that is not a time. */
  datatype Stamp = At(second: int) | Unparsable

  datatype Approval = Approval(
    ref: string, co: string, route: Route, scope: Scope, revision: string, issuedBy: string,
    issuedAt: Stamp, expiresAt: Stamp,
    consumedAt: Option<Stamp>, supersededAt: Option<Stamp>,
    tenantName: Option<string>, earlyActivation: Option<bool>)

  type Records = map<string, Approval>

  /** The state file: absent, not readable as a set of records, or a set of records still to be checked. */
  datatype StateFile = Absent | Garbled | Stored(records: Records)

  datatype Reason =
    | RouteNotCeOnly | InvalidTenantName | TenantNameNotAllowed | EarlyActivationNotAllowed | IssuerNotAllowed
    | InvalidApprovalRef | InvalidCoReference | InvalidRevision | InvalidLifetime
    | ApprovalRefReused | OtherApprovalActive | ApprovalAlreadyActiveForCo
    | ApprovalMissing | ApprovalConsumed | ApprovalSuperseded | ApprovalExpired
    | ApprovalCoMismatch | ApprovalRouteMismatch | ApprovalRevisionDrift
    | ApprovalTenantNameMissing | ApprovalTenantNameDrift
    | ApprovalUnreadable | ApprovalLocked | ApprovalLockedStale

  datatype IssueRequest = IssueRequest(
    ref: string, co: string, route: Route, revision: string, issuedBy: string, lifetime: int,
    tenantName: Option<string>, earlyActivation: bool)

  datatype Operation =
    | Issue(request: IssueRequest, now: int)
    | Consume(ref: string, co: string, route: Route, revision: string, now: int, tenantName: Option<string>)
    | Revoke(ref: string, now: int)

  // ----- the pure rules ---------------------------------------------------------------------------------------------

  function ToSecond(t: int): int { t / SECOND }

  function ScopeFor(route: Route): Option<Scope> {
    match route
    case CeOnly => Some(CeOnlyScope)
    case Case3 => Some(Case3Scope)
    case SurfaceRenewal => Some(SurfaceRenewalScope)
    case OtherRoute(_) => None
  }

  predicate ValidRecord(key: string, a: Approval) {
    && ReferenceShape(key) && a.ref == key && CoShape(a.co)
    && ScopeFor(a.route) == Some(a.scope)
    && RevisionShape(a.revision)
    && (a.tenantName.Some? ==> a.route == Case3 && TenantNameShape(a.tenantName.value))
    && (a.earlyActivation.Some? ==> a.route == CeOnly && a.earlyActivation.value)
    && IssuerShape(a.issuedBy)
    && a.issuedAt.At? && a.expiresAt.At?
    && (a.consumedAt.Some? ==> a.consumedAt.value.At?)
    && (a.supersededAt.Some? ==> a.supersededAt.value.At?)
  }

  predicate ValidRecords(m: Records) {
    forall key :: key in m ==> ValidRecord(key, m[key])
  }

  /** What a reader gets: no records for a missing file, nothing at all for a file that fails any check. */
  function Load(file: StateFile): Option<Records> {
    match file
    case Absent => Some(map[])
    case Garbled => None
    case Stored(m) => if ValidRecords(m) then Some(m) else None
  }

  function Lookup(m: Records, ref: string): Option<Approval> {
    if ref in m then Some(m[ref]) else None
  }

  function NameProblem(a: Approval, tenantName: Option<string>): Option<Reason> {
    if a.tenantName.None? || !TenantNameShape(a.tenantName.value) then Some(ApprovalTenantNameMissing)
    else if tenantName.Some? && TenantNameShape(tenantName.value) && tenantName == a.tenantName then None
    else Some(ApprovalTenantNameDrift)
  }

  function Problem(found: Option<Approval>, co: string, route: Route, revision: string, now: int,
                   tenantName: Option<string>, requireName: bool): Option<Reason> {
    if found.None? then Some(ApprovalMissing) else
    var a := found.value;
    if a.consumedAt.Some? then Some(ApprovalConsumed)
    else if a.supersededAt.Some? then Some(ApprovalSuperseded)
    else if !a.issuedAt.At? || !a.expiresAt.At? then Some(ApprovalExpired)
    else if !(a.issuedAt.second * SECOND <= now < a.expiresAt.second * SECOND) then Some(ApprovalExpired)
    else if a.co != co then Some(ApprovalCoMismatch)
    else if a.route != route || ScopeFor(route) != Some(a.scope) then Some(ApprovalRouteMismatch)
    else if a.revision != revision then Some(ApprovalRevisionDrift)
    else if route == Case3 && (requireName || tenantName.Some?) then
      if tenantName.None? then Some(ApprovalTenantNameMissing) else NameProblem(a, tenantName)
    else None
  }

  function RevocableProblem(found: Option<Approval>, now: int): Option<Reason> {
    if found.None? then Some(ApprovalMissing)
    else if found.value.consumedAt.Some? then Some(ApprovalConsumed)
    else if found.value.supersededAt.Some? then Some(ApprovalSuperseded)
    else if !found.value.expiresAt.At? || found.value.expiresAt.second * SECOND <= now then Some(ApprovalExpired)
    else None
  }

  function RequestProblem(q: IssueRequest, allowedIssuers: set<string>): Option<Reason> {
    if ScopeFor(q.route).None? then Some(RouteNotCeOnly)
    else if q.route == Case3 && (q.tenantName.None? || !TenantNameShape(q.tenantName.value)) then
      Some(InvalidTenantName)
    else if q.route != Case3 && q.tenantName.Some? then Some(TenantNameNotAllowed)
    else if q.earlyActivation && q.route != CeOnly then Some(EarlyActivationNotAllowed)
    else if q.issuedBy !in allowedIssuers || !IssuerShape(q.issuedBy) then Some(IssuerNotAllowed)
    else if !ReferenceShape(q.ref) then Some(InvalidApprovalRef)
    else if !CoShape(q.co) then Some(InvalidCoReference)
    else if !RevisionShape(q.revision) then Some(InvalidRevision)
    else if !(0 < q.lifetime <= MAX_LIFETIME) then Some(InvalidLifetime)
    else None
  }

  function NewRecord(q: IssueRequest, now: int): Approval {
    var moment := ToSecond(now);
    Approval(q.ref, q.co, q.route, ScopeFor(q.route).GetOr(OtherScope("")), q.revision, q.issuedBy,
             At(moment), At(ToSecond(moment * SECOND + q.lifetime)), None, None,
             if q.route == Case3 then q.tenantName else None,
             if q.earlyActivation then Some(true) else None)
  }

  predicate Open(a: Approval) { a.consumedAt.None? && a.supersededAt.None? }

  /** Neither used, nor retired, nor expired at `now`: what keeps another approval from being issued. */
  predicate LiveAt(a: Approval, now: int) {
    Open(a) && a.expiresAt.At? && now < a.expiresAt.second * SECOND
  }

  /** A live approval of the same CO that the request may not replace, or one of another CO. */
  predicate Blocks(a: Approval, q: IssueRequest, now: int) {
    LiveAt(a, ToSecond(now) * SECOND)
    && (a.co != q.co || (a.revision == q.revision && (a.earlyActivation == Some(true) || !q.earlyActivation)))
  }

  predicate CanIssue(m: Records, q: IssueRequest, now: int) {
    q.ref !in m && forall key :: key in m ==> !Blocks(m[key], q, now)
  }

  function Superseded(a: Approval, now: int): Approval { a.(supersededAt := Some(At(ToSecond(now)))) }

  function Used(a: Approval, now: int): Approval { a.(consumedAt := Some(At(ToSecond(now)))) }

  /** The records after an accepted issue: every still live approval retired, the new one added. */
  function Issued(m: Records, q: IssueRequest, now: int): Records {
    (map key | key in m :: if LiveAt(m[key], ToSecond(now) * SECOND) then Superseded(m[key], now) else m[key])
    [q.ref := NewRecord(q, now)]
  }

  /** The records an operation leaves when it is accepted on `m`, None when it is refused. */
  function Apply(m: Records, op: Operation): Option<Records> {
    match op
    case Issue(q, now) => if CanIssue(m, q, now) then Some(Issued(m, q, now)) else None
    case Consume(ref, co, route, revision, now, name) =>
      if Problem(Lookup(m, ref), co, route, revision, now, name, true).None?
      then Some(m[ref := Used(m[ref], now)]) else None
    case Revoke(ref, now) =>
      if RevocableProblem(Lookup(m, ref), ToSecond(now) * SECOND).None?
      then Some(m[ref := Superseded(m[ref], now)]) else None
  }

  /** An operation whose arguments passed the checks made before the lock is taken. */
  predicate WellFormed(op: Operation) {
    match op
    case Issue(q, _) => RequestProblem(q, {q.issuedBy}).None?
    case Consume(_, _, _, _, _, _) => true
    case Revoke(ref, _) => ReferenceShape(ref)
  }

  // ----- sequences of operations ------------------------------------------------------------------------------------

  /** The records after a sequence of operations; a refused operation changes nothing. */
  function Replay(m: Records, ops: seq<Operation>): Records
    decreases |ops|
  {
    if ops == [] then m else Replay(Apply(m, ops[0]).GetOr(m), ops[1..])
  }

  /** A record only ever gains its one end mark. */
  predicate Grown(a: Approval, b: Approval) {
    b == a
    || (Open(a) && b.consumedAt.Some? && b == a.(consumedAt := b.consumedAt))
    || (Open(a) && b.supersededAt.Some? && b == a.(supersededAt := b.supersededAt))
  }

  /** No record is lost, and each is as it was or has gained one end mark. */
  predicate Extends(m: Records, n: Records) {
    m.Keys <= n.Keys && forall key :: key in m ==> Grown(m[key], n[key])
  }

  /** The window in which `Problem` can accept the approval. */
  predicate UsableAt(a: Approval, now: int) {
    Open(a) && a.issuedAt.At? && a.expiresAt.At? && a.issuedAt.second * SECOND <= now < a.expiresAt.second * SECOND
  }

  predicate Apart(a: Approval, b: Approval) {
    a.issuedAt.At? && a.expiresAt.At? && b.issuedAt.At? && b.expiresAt.At?
    && (a.expiresAt.second <= b.issuedAt.second || b.expiresAt.second <= a.issuedAt.second)
  }

  /** What every reachable set of records satisfies, whatever the clock did. */
  ghost predicate Sound(m: Records) {
    && ValidRecords(m)
    && (forall key :: key in m ==> m[key].consumedAt.None? || m[key].supersededAt.None?)
    && (forall j, k :: j in m && k in m && j != k && Open(m[j]) && Open(m[k]) ==> Apart(m[j], m[k]))
  }
}
