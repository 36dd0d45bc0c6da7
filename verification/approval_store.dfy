/** The approval file as the three operations change it in place, each under the file lock. */
module ApprovalStore {
  import opened Wrappers
  import opened Approvals
  import ApprovalLaws

  /** What creating the lock file with O_EXCL answered. */
  datatype LockAttempt = Acquired | LockHeld | LockStale | NoDirectory

  /** `Raised` is an OSError of the write itself: the file keeps its old content. */
  datatype Outcome = Done | Refused(reason: Reason) | Raised

  function LockReason(lock: LockAttempt): Reason {
    match lock case LockStale => ApprovalLockedStale case NoDirectory => ApprovalMissing case _ => ApprovalLocked
  }

  /** Without the lock the caller is told who is in the way: another call, one that died, or no directory at all. */
  predicate LockTold(lock: LockAttempt, outcome: Outcome) {
    match lock
    case LockHeld => outcome == Refused(ApprovalLocked)
    case LockStale => outcome == Refused(ApprovalLockedStale)
    case NoDirectory => outcome == Refused(ApprovalMissing)
    case Acquired => true
  }

  /** The request is in order, the lock is held and the file was read. */
  predicate Reached(file: StateFile, q: IssueRequest, issuers: set<string>, lock: LockAttempt) {
    RequestProblem(q, issuers).None? && lock.Acquired? && Load(file).Some?
  }

  /** Some live approval refuses the request, for this reason. */
  predicate BlockedFor(m: Records, q: IssueRequest, now: int, reason: Reason) {
    exists key :: key in m && Blocks(m[key], q, now)
      && reason == if m[key].co != q.co then OtherApprovalActive else ApprovalAlreadyActiveForCo
  }

  /** The walk over the records: stops at one that blocks, else retires the live ones and adds the new record. */
  method ReplaceLive(m: Records, q: IssueRequest, now: int) returns (next: Result<Records, Reason>)
    requires q.ref !in m
    ensures next.Ok? ==> CanIssue(m, q, now) && next.value == Issued(m, q, now)
    ensures next.Err? ==> !CanIssue(m, q, now) && BlockedFor(m, q, now, next.error)
  {
    var moment := ToSecond(now) * SECOND;
    var rest, superseded := m.Keys, {};
    while rest != {}
      invariant rest <= m.Keys
      invariant superseded == set key | key in m && key !in rest && LiveAt(m[key], moment)
      invariant forall key :: key in m && key !in rest ==> !Blocks(m[key], q, now)
    {
      var key :| key in rest;
      var other := m[key];
      if LiveAt(other, moment) {
        if other.co != q.co { return Err(OtherApprovalActive); }
        if other.revision == q.revision && (other.earlyActivation == Some(true) || !q.earlyActivation) {
          return Err(ApprovalAlreadyActiveForCo);
        }
        superseded := superseded + {key};
      }
      rest := rest - {key};
    }
    var records := m;
    while superseded != {}
      invariant superseded <= m.Keys && records.Keys == m.Keys
      invariant forall key :: key in superseded ==> LiveAt(m[key], moment)
      invariant forall key :: key in m ==>
        records[key] == if LiveAt(m[key], moment) && key !in superseded then Superseded(m[key], now) else m[key]
    {
      var key :| key in superseded;
      records := records[key := Superseded(m[key], now)];
      superseded := superseded - {key};
    }
    records := records[q.ref := NewRecord(q, now)];
    assert records == Issued(m, q, now);
    return Ok(records);
  }

  class Store {
    var file: StateFile

    constructor (initial: StateFile)
      ensures file == initial
    {
      file := initial;
    }

    /**
      Issues an approval: refuses on any live approval it may not replace, else retires the live ones and adds its
      own.
    */
    method Issue(q: IssueRequest, issuers: set<string>, now: int, lock: LockAttempt, writes: bool)
        returns (outcome: Outcome)
      modifies this
      ensures !outcome.Done? ==> file == old(file)
      ensures outcome.Done? <==>
        RequestProblem(q, issuers).None? && lock.Acquired? && writes && Load(old(file)).Some?
        && Apply(Load(old(file)).value, Operation.Issue(q, now)).Some?
      ensures outcome.Done? ==> file == Stored(Apply(Load(old(file)).value, Operation.Issue(q, now)).value)
      ensures outcome.Done? ==> Load(file) == Some(Apply(Load(old(file)).value, Operation.Issue(q, now)).value)
      ensures RequestProblem(q, issuers).Some? ==> outcome == Refused(RequestProblem(q, issuers).value)
      ensures RequestProblem(q, issuers).None? && !lock.Acquired? ==> LockTold(lock, outcome)
      ensures RequestProblem(q, issuers).None? && lock.Acquired? && Load(old(file)).None? ==>
        outcome == Refused(ApprovalUnreadable)
      ensures Reached(old(file), q, issuers, lock) && q.ref in Load(old(file)).value ==>
        outcome == Refused(ApprovalRefReused)
      ensures Reached(old(file), q, issuers, lock) && q.ref !in Load(old(file)).value ==>
        match outcome
        case Done => CanIssue(Load(old(file)).value, q, now)
        case Raised => !writes && CanIssue(Load(old(file)).value, q, now)
        case Refused(reason) => BlockedFor(Load(old(file)).value, q, now, reason)
    {
      var problem := RequestProblem(q, issuers);
      if problem.Some? { return Refused(problem.value); }
      if !lock.Acquired? { return Refused(LockReason(lock)); }
      var loaded := Load(file);
      if loaded.None? { return Refused(ApprovalUnreadable); }
      var m := loaded.value;
      if q.ref in m { return Refused(ApprovalRefReused); }
      var next := ReplaceLive(m, q, now);
      if next.Err? { return Refused(next.error); }
      var records := next.value;
      if !writes { return Raised; }
      file := Stored(records);
      WrittenFileLoads(m, Operation.Issue(q, now));
      return Done;
    }

    /** Marks the approval used, exactly when it is valid for this CO, route, revision, time and bound name. */
    method Consume(ref: string, co: string, route: Route, revision: string, now: int, name: Option<string>,
                   lock: LockAttempt, writes: bool) returns (outcome: Outcome)
      modifies this
      ensures !outcome.Done? ==> file == old(file)
      ensures !lock.Acquired? ==> LockTold(lock, outcome)
      ensures lock.Acquired? && Load(old(file)).None? ==> outcome == Refused(ApprovalUnreadable)
      ensures lock.Acquired? && Load(old(file)).Some? ==>
        var op := Operation.Consume(ref, co, route, revision, now, name);
        match Problem(Lookup(Load(old(file)).value, ref), co, route, revision, now, name, true)
        case Some(reason) => outcome == Refused(reason) && Apply(Load(old(file)).value, op).None?
        case None =>
          Apply(Load(old(file)).value, op).Some?
          && if writes then outcome == Done && file == Stored(Apply(Load(old(file)).value, op).value)
                            && Load(file) == Apply(Load(old(file)).value, op)
             else outcome == Raised
    {
      if !lock.Acquired? { return Refused(LockReason(lock)); }
      var loaded := Load(file);
      if loaded.None? { return Refused(ApprovalUnreadable); }
      var m := loaded.value;
      var found := Problem(Lookup(m, ref), co, route, revision, now, name, true);
      if found.Some? { return Refused(found.value); }
      if !writes { return Raised; }
      file := Stored(m[ref := Used(m[ref], now)]);
      WrittenFileLoads(m, Operation.Consume(ref, co, route, revision, now, name));
      return Done;
    }

    /** Retires one live approval and changes nothing else. */
    method Revoke(ref: string, now: int, lock: LockAttempt, writes: bool) returns (outcome: Outcome)
      modifies this
      ensures !outcome.Done? ==> file == old(file)
      ensures outcome.Done? <==>
        Text.ReferenceShape(ref) && lock.Acquired? && writes && Load(old(file)).Some?
        && Apply(Load(old(file)).value, Operation.Revoke(ref, now)).Some?
      ensures outcome.Done? ==> file == Stored(Apply(Load(old(file)).value, Operation.Revoke(ref, now)).value)
      ensures outcome.Done? ==> Load(file) == Apply(Load(old(file)).value, Operation.Revoke(ref, now))
      ensures !Text.ReferenceShape(ref) ==> outcome == Refused(InvalidApprovalRef)
      ensures Text.ReferenceShape(ref) && !lock.Acquired? ==> LockTold(lock, outcome)
      ensures Text.ReferenceShape(ref) && lock.Acquired? && Load(old(file)).None? ==>
        outcome == Refused(ApprovalUnreadable)
      ensures Text.ReferenceShape(ref) && lock.Acquired? && Load(old(file)).Some? ==>
        match RevocableProblem(Lookup(Load(old(file)).value, ref), ToSecond(now) * SECOND)
        case Some(reason) => outcome == Refused(reason)
        case None => outcome == if writes then Done else Raised
    {
      if !Text.ReferenceShape(ref) { return Refused(InvalidApprovalRef); }
      if !lock.Acquired? { return Refused(LockReason(lock)); }
      var loaded := Load(file);
      if loaded.None? { return Refused(ApprovalUnreadable); }
      var m := loaded.value;
      var problem := RevocableProblem(Lookup(m, ref), ToSecond(now) * SECOND);
      if problem.Some? { return Refused(problem.value); }
      if !writes { return Raised; }
      file := Stored(m[ref := Superseded(m[ref], now)]);
      WrittenFileLoads(m, Operation.Revoke(ref, now));
      return Done;
    }
  }

  /**
    A file that loaded still loads after any accepted operation: nothing written is ever refused by the next reader.
  */
  lemma WrittenFileLoads(m: Records, op: Operation)
    requires ValidRecords(m) && WellFormed(op) && Apply(m, op).Some?
    ensures ValidRecords(Apply(m, op).value)
  {
    if op.Issue? {
      ApprovalLaws.NewRecordValid(op.request, op.now);
      var n := Issued(m, op.request, op.now);
      forall key | key in m ensures ValidRecord(key, n[key]) { assert ValidRecord(key, m[key]); }
    } else {
      assert ValidRecord(op.ref, m[op.ref]);
    }
  }
}
