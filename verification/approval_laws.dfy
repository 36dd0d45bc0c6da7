/** What every sequence of `Issue`, `Consume` and `Revoke` keeps. */
module ApprovalLaws {
  import opened Wrappers
  import opened Approvals
  import Text

  lemma NewRecordValid(q: IssueRequest, now: int)
    requires RequestProblem(q, {q.issuedBy}).None?
    ensures ValidRecord(q.ref, NewRecord(q, now)) && Open(NewRecord(q, now))
  {
  }

  /** The scope written beside a route. */
  predicate ScopeIsOf(scope: Scope, route: Route) {
    (scope.CeOnlyScope? && route.CeOnly?) || (scope.Case3Scope? && route.Case3?)
    || (scope.SurfaceRenewalScope? && route.SurfaceRenewal?)
  }

  /** The whole second that `t` lies in. */
  function WholeSecond(t: int): int { t / 1_000_000 * 1_000_000 }

  /**
    After an accepted issue the new record is the one that was asked for, and it can be used exactly from the second
    of the issue until, not including, the second in which the requested lifetime is over.
  */
  lemma IssuedAsRequested(m: Records, q: IssueRequest, now: int, t: int)
    requires RequestProblem(q, {q.issuedBy}).None? && Apply(m, Issue(q, now)).Some?
    ensures q.ref in Apply(m, Issue(q, now)).value
    ensures var a := Apply(m, Issue(q, now)).value[q.ref];
            && a.ref == q.ref && a.co == q.co && a.route == q.route && a.revision == q.revision
            && ScopeIsOf(a.scope, q.route) && a.issuedBy == q.issuedBy && a.tenantName == q.tenantName
            && (a.earlyActivation == Some(true) <==> q.earlyActivation)
            && a.consumedAt.None? && a.supersededAt.None?
            && (UsableAt(a, t) <==> WholeSecond(now) <= t < WholeSecond(WholeSecond(now) + q.lifetime))
  {
  }

  /**
    An issue retires exactly what was live in its second, a use and a revocation end one record; each stamps its
    second.
  */
  lemma EndMarksExactly(m: Records, op: Operation, key: string)
    requires Apply(m, op).Some? && key in m
    ensures var a, b := m[key], Apply(m, op).value[key];
            match op
            case Issue(_, now) =>
              var live := a.consumedAt.None? && a.supersededAt.None? && a.expiresAt.At?
                          && WholeSecond(now) < a.expiresAt.second * 1_000_000;
              b == if live then a.(supersededAt := Some(At(now / 1_000_000))) else a
            case Consume(ref, _, _, _, now, _) => b == if key == ref then a.(consumedAt := Some(At(now / 1_000_000)))
              else a
            case Revoke(ref, now) => b == if key == ref then a.(supersededAt := Some(At(now / 1_000_000))) else a
  {
  }

  /** What an accepted issue leaves of an old record: itself, or itself retired. */
  lemma IssueGrows(m: Records, q: IssueRequest, now: int, key: string)
    requires CanIssue(m, q, now) && key in m && ValidRecord(key, m[key])
    ensures ValidRecord(key, Issued(m, q, now)[key]) && Grown(m[key], Issued(m, q, now)[key])
    ensures Open(Issued(m, q, now)[key]) ==> Issued(m, q, now)[key] == m[key] && Apart(m[key], NewRecord(q, now))
  {
  }

  /** An accepted issue starts its window where every approval left open has ended. */
  lemma IssueKeepsSound(m: Records, q: IssueRequest, now: int)
    requires Sound(m) && WellFormed(Issue(q, now)) && CanIssue(m, q, now)
    ensures Sound(Issued(m, q, now)) && Extends(m, Issued(m, q, now))
  {
    var n := Issued(m, q, now);
    NewRecordValid(q, now);
    forall key | key in m
      ensures ValidRecord(key, n[key]) && Grown(m[key], n[key])
      ensures Open(n[key]) ==> n[key] == m[key] && Apart(n[key], n[q.ref])
    {
      IssueGrows(m, q, now, key);
    }
  }

  /** Giving one open record its end mark takes nothing away from any other. */
  lemma EndMarkKeepsSound(m: Records, ref: string, ended: Approval)
    requires Sound(m) && ref in m && Open(m[ref]) && !Open(ended) && ValidRecord(ref, ended) && Grown(m[ref], ended)
    ensures Sound(m[ref := ended]) && Extends(m, m[ref := ended])
  {
    var n := m[ref := ended];
    forall key | key in n ensures ValidRecord(key, n[key]) {
      if key != ref { assert ValidRecord(key, m[key]); }
    }
  }

  /**
    Accepted exactly for an open approval, inside its window, of this CO, route and revision, and in Case 3 this
    tenant.
  */
  lemma UsedExactlyWhenValid(m: Records, ref: string, co: string, route: Route, revision: string, now: int,
      name: Option<string>)
    ensures Apply(m, Consume(ref, co, route, revision, now, name)).Some? <==>
      ref in m && UsableAt(m[ref], now) && m[ref].co == co && m[ref].route == route
        && ScopeIsOf(m[ref].scope, route) && m[ref].revision == revision
      && (route == Case3 ==> name.Some? && m[ref].tenantName == name && Text.TenantNameShape(name.value))
  {
  }

  /** One accepted operation keeps every file acceptable to the next reader and never lets two windows overlap. */
  lemma ApplyKeepsSound(m: Records, op: Operation)
    requires Sound(m) && WellFormed(op) && Apply(m, op).Some?
    ensures Sound(Apply(m, op).value) && Extends(m, Apply(m, op).value)
  {
    match op
    case Issue(q, now) => IssueKeepsSound(m, q, now);
    case Consume(ref, _, _, _, now, _) => EndMarkKeepsSound(m, ref, Used(m[ref], now));
    case Revoke(ref, now) => EndMarkKeepsSound(m, ref, Superseded(m[ref], now));
  }

  lemma ExtendsTransitive(a: Records, b: Records, c: Records)
    requires Extends(a, b) && Extends(b, c)
    ensures Extends(a, c)
  {
    forall key | key in a ensures Grown(a[key], c[key]) {
      assert Grown(a[key], b[key]) && Grown(b[key], c[key]);
    }
  }

  lemma {:induction false} ReplayKeepsSound(m: Records, ops: seq<Operation>)
    requires Sound(m) && forall i :: 0 <= i < |ops| ==> WellFormed(ops[i])
    ensures Sound(Replay(m, ops)) && Extends(m, Replay(m, ops))
    decreases |ops|
  {
    if ops != [] {
      var n := Apply(m, ops[0]).GetOr(m);
      if Apply(m, ops[0]).Some? { ApplyKeepsSound(m, ops[0]); }
      ReplayKeepsSound(n, ops[1..]);
      ExtendsTransitive(m, n, Replay(m, ops));
    }
  }

  /**
    From an empty file, whatever operations ran and whatever times they were given, at no time can two approvals be
    used: two references the checks accept at the same instant are the same reference.
  */
  lemma AtMostOneUsable(ops: seq<Operation>, now: int, r1: string, r2: string,
                        co1: string, co2: string, route1: Route, route2: Route, rev1: string, rev2: string,
                        name1: Option<string>, name2: Option<string>, strict1: bool, strict2: bool)
    requires forall i :: 0 <= i < |ops| ==> WellFormed(ops[i])
    requires Problem(Lookup(Replay(map[], ops), r1), co1, route1, rev1, now, name1, strict1).None?
    requires Problem(Lookup(Replay(map[], ops), r2), co2, route2, rev2, now, name2, strict2).None?
    ensures r1 == r2
  {
    ReplayKeepsSound(map[], ops);
    var m := Replay(map[], ops);
    assert UsableAt(m[r1], now) && UsableAt(m[r2], now);
    assert r1 != r2 ==> Apart(m[r1], m[r2]);
  }

  function TimeOf(op: Operation): int {
    match op case Issue(_, now) => now case Consume(_, _, _, _, now, _) => now case Revoke(_, now) => now
  }

  predicate Ordered(ops: seq<Operation>) {
    forall i, j :: 0 <= i < j < |ops| ==> TimeOf(ops[i]) <= TimeOf(ops[j])
  }

  /** At most one approval is still open past `t`. */
  ghost predicate OneLiveFrom(m: Records, t: int) {
    forall j, k, now :: t <= now && j in m && k in m && LiveAt(m[j], now) && LiveAt(m[k], now) ==> j == k
  }

  /** After an accepted issue only the new approval is still live. */
  lemma IssueLeavesOnlyNew(m: Records, q: IssueRequest, now: int, later: int, key: string)
    requires CanIssue(m, q, now) && now <= later && key in Issued(m, q, now) && LiveAt(Issued(m, q, now)[key], later)
    ensures key == q.ref
  {
  }

  lemma ApplyLeavesOneLive(m: Records, op: Operation, t: int)
    requires OneLiveFrom(m, t) && t <= TimeOf(op)
    ensures OneLiveFrom(Apply(m, op).GetOr(m), TimeOf(op))
  {
    var n := Apply(m, op).GetOr(m);
    if op.Issue? && n != m {
      forall key, now | TimeOf(op) <= now && key in n && LiveAt(n[key], now) ensures key == op.request.ref {
        IssueLeavesOnlyNew(m, op.request, op.now, now, key);
      }
    }
  }

  lemma {:induction false} ReplayLeavesOneLive(m: Records, ops: seq<Operation>, t: int)
    requires OneLiveFrom(m, t) && Ordered(ops) && (ops != [] ==> t <= TimeOf(ops[0]))
    ensures OneLiveFrom(Replay(m, ops), if ops == [] then t else TimeOf(ops[|ops| - 1]))
    decreases |ops|
  {
    if ops != [] {
      ApplyLeavesOneLive(m, ops[0], t);
      ReplayLeavesOneLive(Apply(m, ops[0]).GetOr(m), ops[1..], TimeOf(ops[0]));
    }
  }

  /** With nondecreasing times at most one approval of any CO is live (revocable) from the last operation on. */
  lemma AtMostOneLive(ops: seq<Operation>, now: int, j: string, k: string)
    requires Ordered(ops) && ops != [] && TimeOf(ops[|ops| - 1]) <= now
    requires RevocableProblem(Lookup(Replay(map[], ops), j), now).None?
    requires RevocableProblem(Lookup(Replay(map[], ops), k), now).None?
    ensures j == k
  {
    ReplayLeavesOneLive(map[], ops, TimeOf(ops[0]));
    var m := Replay(map[], ops);
    assert LiveAt(m[j], now) && LiveAt(m[k], now);
  }

  // ----- one use ----------------------------------------------------------------------------------------------------

  predicate Consumes(m: Records, op: Operation, ref: string) {
    op.Consume? && op.ref == ref && Apply(m, op).Some?
  }

  /** How many operations of the sequence consume `ref` successfully. */
  function Uses(m: Records, ops: seq<Operation>, ref: string): nat
    decreases |ops|
  {
    if ops == [] then 0
    else (if Consumes(m, ops[0], ref) then 1 else 0) + Uses(Apply(m, ops[0]).GetOr(m), ops[1..], ref)
  }

  lemma {:induction false} NoUseOnceEnded(m: Records, ops: seq<Operation>, ref: string)
    requires ref in m && !Open(m[ref])
    ensures Uses(m, ops, ref) == 0
    decreases |ops|
  {
    if ops != [] { NoUseOnceEnded(Apply(m, ops[0]).GetOr(m), ops[1..], ref); }
  }

  /** An approval is used at most once over any sequence of operations, from any file. */
  lemma {:induction false} UsedAtMostOnce(m: Records, ops: seq<Operation>, ref: string)
    ensures Uses(m, ops, ref) <= 1
    decreases |ops|
  {
    if ops != [] {
      var n := Apply(m, ops[0]).GetOr(m);
      if Consumes(m, ops[0], ref) { NoUseOnceEnded(n, ops[1..], ref); } else { UsedAtMostOnce(n, ops[1..], ref); }
    }
  }

  /** A superseded or revoked approval is never used afterwards, and a used one is never superseded. */
  lemma RetiredForEver(m: Records, ops: seq<Operation>, ref: string)
    requires Sound(m) && ref in m && !Open(m[ref]) && forall i :: 0 <= i < |ops| ==> WellFormed(ops[i])
    ensures ref in Replay(m, ops) && Replay(m, ops)[ref] == m[ref]
  {
    ReplayKeepsSound(m, ops);
    assert Grown(m[ref], Replay(m, ops)[ref]);
  }

  // ----- which reason is told ---------------------------------------------------------------------------------------

  lemma ScopeExactly(route: Route, scope: Scope)
    ensures ScopeFor(route) == Some(scope) <==> ScopeIsOf(scope, route)
  {
  }

  /** What each refusal of a use says is wrong. */
  predicate UseRefusal(reason: Reason, found: Option<Approval>, co: string, route: Route, revision: string, now: int,
      name: Option<string>, requireName: bool) {
    match reason
    case ApprovalMissing => found.None?
    case ApprovalConsumed => found.Some? && found.value.consumedAt.Some?
    case ApprovalSuperseded => found.Some? && found.value.supersededAt.Some?
    case ApprovalExpired =>
      found.Some? && !(found.value.issuedAt.At? && found.value.expiresAt.At?
                       && found.value.issuedAt.second * 1_000_000 <= now < found.value.expiresAt.second * 1_000_000)
    case ApprovalCoMismatch => found.Some? && found.value.co != co
    case ApprovalRouteMismatch => found.Some? && (found.value.route != route || !ScopeIsOf(found.value.scope, route))
    case ApprovalRevisionDrift => found.Some? && found.value.revision != revision
    case ApprovalTenantNameMissing =>
      found.Some? && route == Case3
      && if name.None? then requireName
         else found.value.tenantName.None? || !Text.TenantNameShape(found.value.tenantName.value)
    case ApprovalTenantNameDrift =>
      found.Some? && route == Case3 && name.Some?
        && !(found.value.tenantName == name && Text.TenantNameShape(name.value))
    case _ => false
  }

  /** The order in which they are looked for. */
  function UseOrder(reason: Reason): nat {
    match reason
    case ApprovalMissing => 0 case ApprovalConsumed => 1 case ApprovalSuperseded => 2 case ApprovalExpired => 3
    case ApprovalCoMismatch => 4 case ApprovalRouteMismatch => 5 case ApprovalRevisionDrift => 6
    case ApprovalTenantNameMissing => 7 case _ => 8
  }

  /** A use is refused exactly when something is wrong, and told the first thing that is. */
  lemma UseToldFirst(found: Option<Approval>, co: string, route: Route, revision: string, now: int,
      name: Option<string>, requireName: bool, reason: Reason)
    ensures Problem(found, co, route, revision, now, name, requireName) == Some(reason) <==>
      UseRefusal(reason, found, co, route, revision, now, name, requireName)
      && forall other :: UseRefusal(other, found, co, route, revision, now, name, requireName) ==>
           UseOrder(reason) <= UseOrder(other)
  {
    if found.Some? { ScopeExactly(route, found.value.scope); }
    var told := Problem(found, co, route, revision, now, name, requireName);
    if told.Some? { assert UseRefusal(told.value, found, co, route, revision, now, name, requireName); }
  }

  predicate RevokeRefusal(reason: Reason, found: Option<Approval>, now: int) {
    match reason
    case ApprovalMissing => found.None?
    case ApprovalConsumed => found.Some? && found.value.consumedAt.Some?
    case ApprovalSuperseded => found.Some? && found.value.supersededAt.Some?
    case ApprovalExpired =>
      found.Some? && !(found.value.expiresAt.At? && now < found.value.expiresAt.second * 1_000_000)
    case _ => false
  }

  /** A revocation is refused exactly when something is wrong, and told the first thing that is. */
  lemma RevokeToldFirst(found: Option<Approval>, now: int, reason: Reason)
    ensures RevocableProblem(found, now) == Some(reason) <==>
      RevokeRefusal(reason, found, now)
      && forall other :: RevokeRefusal(other, found, now) ==> UseOrder(reason) <= UseOrder(other)
  {
    var told := RevocableProblem(found, now);
    if told.Some? { assert RevokeRefusal(told.value, found, now); }
  }

  /** What each refusal of an issue request says is wrong with it. */
  predicate RequestRefusal(reason: Reason, q: IssueRequest, issuers: set<string>) {
    match reason
    case RouteNotCeOnly => q.route.OtherRoute?
    case InvalidTenantName =>
      q.route.Case3? && (q.tenantName.None? || !Text.TenantNameShape(q.tenantName.value))
    case TenantNameNotAllowed => !q.route.Case3? && q.tenantName.Some?
    case EarlyActivationNotAllowed => q.earlyActivation && !q.route.CeOnly?
    case IssuerNotAllowed => q.issuedBy !in issuers || !Text.IssuerShape(q.issuedBy)
    case InvalidApprovalRef => !Text.ReferenceShape(q.ref)
    case InvalidCoReference => !Text.CoShape(q.co)
    case InvalidRevision => q.revision == "" || |q.revision| > 128
    case InvalidLifetime => q.lifetime <= 0 || q.lifetime > 31 * 86_400 * 1_000_000
    case _ => false
  }

  function RequestOrder(reason: Reason): nat {
    match reason
    case RouteNotCeOnly => 0 case InvalidTenantName => 1 case TenantNameNotAllowed => 2
    case EarlyActivationNotAllowed => 3 case IssuerNotAllowed => 4 case InvalidApprovalRef => 5
    case InvalidCoReference => 6 case InvalidRevision => 7 case _ => 8
  }

  /** A request is refused exactly when something is wrong with it, and told the first thing that is. */
  lemma RequestToldFirst(q: IssueRequest, issuers: set<string>, reason: Reason)
    ensures RequestProblem(q, issuers) == Some(reason) <==>
      RequestRefusal(reason, q, issuers)
      && forall other :: RequestRefusal(other, q, issuers) ==> RequestOrder(reason) <= RequestOrder(other)
  {
    var told := RequestProblem(q, issuers);
    if told.Some? { assert RequestRefusal(told.value, q, issuers); }
  }

  /** Live: neither used nor retired, and not expired in the second of `now`. */
  predicate StillLive(a: Approval, now: int) {
    a.consumedAt.None? && a.supersededAt.None? && a.expiresAt.At? && WholeSecond(now) < a.expiresAt.second * 1_000_000
  }

  /**
    A request in order is issued exactly under a new reference, when every live approval is of the same CO and either of
    another revision, or one without early activation that one with it replaces.
  */
  lemma IssuedExactly(m: Records, q: IssueRequest, now: int)
    ensures Apply(m, Issue(q, now)).Some? <==>
      q.ref !in m
      && forall key :: key in m && StillLive(m[key], now) ==>
           m[key].co == q.co
           && (m[key].revision != q.revision || (q.earlyActivation && m[key].earlyActivation != Some(true)))
  {
  }

  /** And a revocation exactly of a live approval. */
  lemma RevokedExactly(m: Records, ref: string, now: int)
    ensures Apply(m, Revoke(ref, now)).Some? <==> ref in m && StillLive(m[ref], now)
  {
  }

  /**
    A record passes the check of a reader exactly when an issue could have written it, with whatever times: one of a
    request in order, but for a Case 3 record without a name and the end marks.
  */
  lemma ValidExactlyIssuable(key: string, a: Approval)
    ensures ValidRecord(key, a) <==>
      && key == a.ref && a.issuedAt.At? && a.expiresAt.At? && ScopeIsOf(a.scope, a.route)
      && (a.consumedAt.Some? ==> a.consumedAt.value.At?) && (a.supersededAt.Some? ==> a.supersededAt.value.At?)
      && (a.earlyActivation.Some? ==> a.earlyActivation.value)
      && (var q := IssueRequest(a.ref, a.co, a.route, a.revision, a.issuedBy, 1, a.tenantName, a.earlyActivation.Some?);
          forall reason :: RequestRefusal(reason, q, {a.issuedBy}) ==>
            reason.InvalidTenantName? && a.tenantName.None?)
  {
    var q := IssueRequest(a.ref, a.co, a.route, a.revision, a.issuedBy, 1, a.tenantName, a.earlyActivation.Some?);
    ScopeExactly(a.route, a.scope);
    if !ValidRecord(key, a) && ScopeIsOf(a.scope, a.route) {
      assert !Text.ReferenceShape(a.ref) ==> RequestRefusal(InvalidApprovalRef, q, {a.issuedBy});
      assert !Text.CoShape(a.co) ==> RequestRefusal(InvalidCoReference, q, {a.issuedBy});
      assert !Text.RevisionShape(a.revision) ==> RequestRefusal(InvalidRevision, q, {a.issuedBy});
      assert !Text.IssuerShape(a.issuedBy) ==> RequestRefusal(IssuerNotAllowed, q, {a.issuedBy});
      assert q.earlyActivation && !q.route.CeOnly? ==> RequestRefusal(EarlyActivationNotAllowed, q, {a.issuedBy});
      assert q.tenantName.Some? && !q.route.Case3? ==> RequestRefusal(TenantNameNotAllowed, q, {a.issuedBy});
      assert q.tenantName.Some? && !Text.TenantNameShape(q.tenantName.value) && q.route.Case3? ==>
          RequestRefusal(InvalidTenantName, q, {a.issuedBy});
    }
  }

  /** A file is read as empty when there is none, and as its records exactly when every one of them passes. */
  lemma LoadsExactly(file: StateFile)
    ensures Load(file) ==
      if file.Absent? then Some(map[])
      else if file.Stored? && forall key :: key in file.records ==> ValidRecord(key, file.records[key])
      then Some(file.records) else None
  {
  }
}
