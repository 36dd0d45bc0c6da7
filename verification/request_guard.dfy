/**
  The request guard of a live create: reads pass, one armed create passes, afterwards one edit and one scan of the
  tenant armed last, and every other request is aborted and counted.
*/
module RequestGuard {
  import opened Wrappers
  import opened Text

  datatype Site = Production | SameSiteAsset | Elsewhere

  /** What the route handler sees; `readBody` says that the body is one bounded read-only table search. */
  datatype Request = Unreadable | Request(verb: string, site: Site, path: string, readBody: bool)

  const CREATE_PATH := "/api/v1/backoffice/account/add"
  const ACCOUNT_PREFIX := "/api/v1/backoffice/account/"
  const EDIT_SUFFIX := "/edit"
  const SCAN_SUFFIX := "/campaign/executeReconCampaign"
  const TABLE_READ_PATH := "/api/v1/backoffice/getAllDetailedAccounts"

  datatype Kind = CreatePost | EditOf(id: string) | ScanOf(id: string) | Other

  /** The part of `path` between `prefix` and `suffix`, when it has both. */
  function Between(path: string, prefix: string, suffix: string): Option<string> {
    if |prefix| + |suffix| <= |path| && path[..|prefix|] == prefix && path[|path| - |suffix|..] == suffix
    then Some(path[|prefix|..|path| - |suffix|]) else None
  }

  predicate EditIdShape(id: string) { |id| == 24 && forall i :: 0 <= i < |id| ==> IsHex(id[i]) }

  predicate ScanIdShape(id: string) {
    1 <= |id| <= 64
    && forall i :: 0 <= i < |id| ==> IsUpper(id[i]) || IsLower(id[i]) || IsDigit(id[i]) || id[i] == '_' || id[i] == '-'
  }

  function KindOf(r: Request): Kind
    requires r.Request?
  {
    if r.verb != "POST" || !r.site.Production? then Other else
    var edit, scan := Between(r.path, ACCOUNT_PREFIX, EDIT_SUFFIX), Between(r.path, ACCOUNT_PREFIX, SCAN_SUFFIX);
    if edit.Some? && EditIdShape(edit.value) then EditOf(edit.value)
    else if scan.Some? && ScanIdShape(scan.value) then ScanOf(scan.value)
    else if r.path == CREATE_PATH then CreatePost
    else Other
  }

  /** The dry run's table: reads of the production site and its assets, and the one read-only table POST. */
  predicate ReadOnly(r: Request)
    requires r.Request?
  {
    if r.verb == "GET" || r.verb == "HEAD" then r.site.Production? || r.site.SameSiteAsset?
    else r.verb == "POST" && r.site.Production? && r.path == TABLE_READ_PATH && r.readBody
  }

  type Place = (string, string)

  const CREATE_PLACE: Place := ("POST", CREATE_PATH)

  datatype Calls = Calls(count: nat, statuses: set<int>)

  datatype OneShot = OneShot(target: Option<string>, armed: bool, used: bool, blocked: nat)

  datatype State = State(
    armed: bool, createUsed: bool, createBlocked: nat, edit: OneShot, scan: OneShot, popups: nat,
    calls: map<Place, Calls>, otherReads: nat, blocked: multiset<Place>)

  const UNUSED := OneShot(None, false, false, 0)
  const NEW_GUARD := State(false, false, 0, UNUSED, UNUSED, 0, map[], 0, multiset{})

  function PlaceOf(r: Request): Place
    requires r.Request?
  {
    (r.verb, if r.site.Production? then r.path else "<other-origin>")
  }

  predicate ApiAt(path: string, i: nat) { i + 5 <= |path| && path[i..i + 5] == "/api/" }

  predicate IsApi(path: string) { exists i :: 0 <= i <= |path| && ApiAt(path, i) }

  function Counted(calls: map<Place, Calls>, place: Place): map<Place, Calls> {
    var entry := if place in calls then calls[place] else Calls(0, {});
    calls[place := entry.(count := entry.count + 1)]
  }

  function Refused(s: State, r: Request): State
    requires r.Request?
  {
    s.(blocked := s.blocked + multiset{PlaceOf(r)})
  }

  predicate MayPass(one: OneShot, id: string) { one.armed && !one.used && one.target == Some(id) }

  function Spent(one: OneShot): OneShot { one.(used := true, armed := false) }

  function Passed(s: State, r: Request): State
    requires r.Request?
  {
    s.(calls := Counted(s.calls, PlaceOf(r)))
  }

  function HandledEdit(s: State, r: Request, id: string): (State, bool)
    requires r.Request?
  {
    if MayPass(s.edit, id) then (Passed(s, r).(edit := Spent(s.edit)), true)
    else (Refused(s, r).(edit := s.edit.(blocked := s.edit.blocked + 1)), false)
  }

  function HandledScan(s: State, r: Request, id: string): (State, bool)
    requires r.Request?
  {
    if MayPass(s.scan, id) then (Passed(s, r).(scan := Spent(s.scan)), true)
    else (Refused(s, r).(scan := s.scan.(blocked := s.scan.blocked + 1)), false)
  }

  function HandledCreate(s: State, r: Request): (State, bool)
    requires r.Request?
  {
    if s.armed && !s.createUsed then (Passed(s, r).(createUsed := true, armed := false), true)
    else (Refused(s, r).(createBlocked := s.createBlocked + 1), false)
  }

  function HandledRead(s: State, r: Request): (State, bool)
    requires r.Request?
  {
    if !ReadOnly(r) then (Refused(s, r), false)
    else if IsApi(PlaceOf(r).1) then (Passed(s, r), true)
    else (s.(otherReads := s.otherReads + 1), true)
  }

  function HandledAs(s: State, r: Request, kind: Kind): (State, bool)
    requires r.Request?
  {
    match kind
    case EditOf(id) => HandledEdit(s, r, id)
    case ScanOf(id) => HandledScan(s, r, id)
    case CreatePost => HandledCreate(s, r)
    case Other => HandledRead(s, r)
  }

  /** The guard after a request, and whether the request was continued. */
  function Handled(s: State, r: Request): (State, bool) {
    if r.Unreadable? then (s, false) else HandledAs(s, r, KindOf(r))
  }

  function Answered(calls: map<Place, Calls>, place: Place, status: int): map<Place, Calls> {
    if place in calls then calls[place := calls[place].(statuses := calls[place].statuses + {status})] else calls
  }

  /** The live guard, and with `renewal` the guard of a renewal: the same object with three arm methods overridden. */
  class LiveRequestGuard {
    const renewal: bool
    var armed: bool
    var createUsed: bool
    var createBlocked: nat
    var popups: nat
    var edit: OneShot
    var scan: OneShot
    var calls: map<Place, Calls>
    var otherReads: nat
    var blocked: multiset<Place>

    function View(): State
      reads this
    {
      State(armed, createUsed, createBlocked, edit, scan, popups, calls, otherReads, blocked)
    }

    constructor (renewal: bool)
      ensures this.renewal == renewal && View() == NEW_GUARD
    {
      this.renewal := renewal;
      armed, createUsed, createBlocked, popups := false, false, 0, 0;
      edit, scan, calls, otherReads, blocked := UNUSED, UNUSED, map[], 0, multiset{};
    }

    method Arm()
      modifies this
      ensures View() == Moved(renewal, old(View()), ArmCreate)
    {
      if renewal { armed := false; } else if !createUsed { armed := true; }
    }

    method Disarm()
      modifies this
      ensures View() == Moved(renewal, old(View()), DisarmCreate)
    {
      armed := false;
    }

    method ArmEdit(id: string)
      modifies this
      ensures View() == Moved(renewal, old(View()), Event.ArmEdit(id))
    {
      if (if renewal then !createUsed else createUsed) && !edit.used {
        edit := edit.(target := Some(id), armed := true);
      }
    }

    method DisarmEdit()
      modifies this
      ensures View() == Moved(renewal, old(View()), Event.DisarmEdit)
    {
      edit := edit.(armed := false);
    }

    method ArmScan(id: string)
      modifies this
      ensures View() == Moved(renewal, old(View()), Event.ArmScan(id))
    {
      if renewal { scan := scan.(armed := false); }
      else if createUsed && !scan.used { scan := scan.(target := Some(id), armed := true); }
    }

    method DisarmScan()
      modifies this
      ensures View() == Moved(renewal, old(View()), Event.DisarmScan)
    {
      scan := scan.(armed := false);
    }

    method Handle(r: Request) returns (continued: bool)
      modifies this
      ensures (View(), continued) == Handled(old(View()), r)
    {
      if r.Unreadable? { return false; }
      match KindOf(r)
      case EditOf(id) => continued := HandleEdit(r, id);
      case ScanOf(id) => continued := HandleScan(r, id);
      case CreatePost => continued := HandleCreate(r);
      case Other => continued := HandleRead(r);
    }

    method HandleCreate(r: Request) returns (continued: bool)
      requires r.Request?
      modifies this
      ensures (View(), continued) == HandledCreate(old(View()), r)
    {
      if !(armed && !createUsed) {
        blocked := blocked + multiset{PlaceOf(r)};
        createBlocked := createBlocked + 1;
        return false;
      }
      createUsed, armed := true, false;
      calls := Counted(calls, PlaceOf(r));
      return true;
    }

    method HandleEdit(r: Request, id: string) returns (continued: bool)
      requires r.Request?
      modifies this
      ensures (View(), continued) == HandledEdit(old(View()), r, id)
    {
      if !(edit.armed && !edit.used && Some(id) == edit.target) {
        blocked := blocked + multiset{PlaceOf(r)};
        edit := edit.(blocked := edit.blocked + 1);
        return false;
      }
      edit := edit.(used := true, armed := false);
      calls := Counted(calls, PlaceOf(r));
      return true;
    }

    method HandleScan(r: Request, id: string) returns (continued: bool)
      requires r.Request?
      modifies this
      ensures (View(), continued) == HandledScan(old(View()), r, id)
    {
      if !(scan.armed && !scan.used && Some(id) == scan.target) {
        blocked := blocked + multiset{PlaceOf(r)};
        scan := scan.(blocked := scan.blocked + 1);
        return false;
      }
      scan := scan.(used := true, armed := false);
      calls := Counted(calls, PlaceOf(r));
      return true;
    }

    method HandleRead(r: Request) returns (continued: bool)
      requires r.Request?
      modifies this
      ensures (View(), continued) == HandledRead(old(View()), r)
    {
      if !ReadOnly(r) {
        blocked := blocked + multiset{PlaceOf(r)};
        return false;
      }
      if IsApi(PlaceOf(r).1) {
        calls := Counted(calls, PlaceOf(r));
      } else {
        otherReads := otherReads + 1;
      }
      return true;
    }

    method OnResponse(place: Place, status: int)
      modifies this
      ensures View() == Moved(renewal, old(View()), Response(place, status))
    {
      if place in calls { calls := calls[place := calls[place].(statuses := calls[place].statuses + {status})]; }
    }

    method OnPopup()
      modifies this
      ensures View() == Moved(renewal, old(View()), Opened)
    {
      popups := popups + 1;
    }
  }

  // ----- sequences of events ----------------------------------------------------------------------------------------

  datatype Event =
    | ArmCreate | DisarmCreate
    | ArmEdit(id: string) | DisarmEdit
    | ArmScan(id: string) | DisarmScan
    | Asked(request: Request)
    | Response(place: Place, status: int)
    | Opened

  function Moved(renewal: bool, s: State, e: Event): State {
    match e
    case ArmCreate => if renewal then s.(armed := false) else if s.createUsed then s else s.(armed := true)
    case DisarmCreate => s.(armed := false)
    case ArmEdit(id) =>
      if s.createUsed != renewal && !s.edit.used then s.(edit := s.edit.(target := Some(id), armed := true)) else s
    case DisarmEdit => s.(edit := s.edit.(armed := false))
    case ArmScan(id) =>
      if renewal then s.(scan := s.scan.(armed := false))
      else if s.createUsed && !s.scan.used then s.(scan := s.scan.(target := Some(id), armed := true)) else s
    case DisarmScan => s.(scan := s.scan.(armed := false))
    case Asked(r) => Handled(s, r).0
    case Response(place, status) => s.(calls := Answered(s.calls, place, status))
    case Opened => s.(popups := s.popups + 1)
  }

  function After(renewal: bool, events: seq<Event>): State {
    if events == [] then NEW_GUARD else Moved(renewal, After(renewal, events[..|events| - 1]), events[|events| - 1])
  }

  /** Event `i` is a request that was continued. */
  predicate Continued(renewal: bool, events: seq<Event>, i: nat) {
    i < |events| && events[i].Asked? && Handled(After(renewal, events[..i]), events[i].request).1
  }

  /** Event `i` is a continued request of this write class. */
  predicate Wrote(renewal: bool, events: seq<Event>, i: nat, c: WriteClass) {
    Continued(renewal, events, i) && events[i].request.Request? && ClassOf(KindOf(events[i].request)) == Some(c)
  }

  datatype WriteClass = Creates | Edits | Scans

  function ClassOf(kind: Kind): Option<WriteClass> {
    match kind
    case CreatePost => Some(Creates)
    case EditOf(_) => Some(Edits)
    case ScanOf(_) => Some(Scans)
    case Other => None
  }

  ghost predicate WroteBefore(renewal: bool, events: seq<Event>, c: WriteClass) {
    exists i :: 0 <= i < |events| && Wrote(renewal, events, i, c)
  }

  function UsedFlag(s: State, c: WriteClass): bool {
    match c case Creates => s.createUsed case Edits => s.edit.used case Scans => s.scan.used
  }

  /** Whether the create is armed, by the arm and disarm calls alone. */
  predicate LastArm(events: seq<Event>) {
    events != [] &&
    match events[|events| - 1]
    case ArmCreate => true
    case DisarmCreate => false
    case _ => LastArm(events[..|events| - 1])
  }

  /**
    The tenant the last edit arming named, unless disarmed since; an arming before the create names none (a renewal:
    any).
  */
  ghost function LastEdit(renewal: bool, events: seq<Event>): Option<string> {
    if events == [] then None else
    var before := events[..|events| - 1];
    match events[|events| - 1]
    case ArmEdit(id) => if renewal || WroteBefore(renewal, before, Creates) then Some(id) else None
    case DisarmEdit => None
    case _ => LastEdit(renewal, before)
  }

  ghost function LastScan(renewal: bool, events: seq<Event>): Option<string> {
    if events == [] then None else
    var before := events[..|events| - 1];
    match events[|events| - 1]
    case ArmScan(id) => if !renewal && WroteBefore(renewal, before, Creates) then Some(id) else None
    case DisarmScan => None
    case _ => LastScan(renewal, before)
  }

  lemma WroteInLonger(renewal: bool, events: seq<Event>, e: Event, i: nat, c: WriteClass)
    requires i < |events|
    ensures Wrote(renewal, events + [e], i, c) <==> Wrote(renewal, events, i, c)
  {
    assert (events + [e])[..i] == events[..i];
  }

  lemma UsedFlagHandled(s: State, r: Request, kind: Kind, c: WriteClass)
    requires r.Request?
    ensures UsedFlag(HandledAs(s, r, kind).0, c) <==>
      UsedFlag(s, c) || (HandledAs(s, r, kind).1 && ClassOf(kind) == Some(c))
    ensures HandledAs(s, r, kind).1 && ClassOf(kind) == Some(c) ==> !UsedFlag(s, c)
  {
  }

  lemma UsedFlagMoves(renewal: bool, s: State, e: Event, c: WriteClass)
    ensures UsedFlag(Moved(renewal, s, e), c) <==>
      UsedFlag(s, c)
      || (e.Asked? && Handled(s, e.request).1 && e.request.Request? && ClassOf(KindOf(e.request)) == Some(c))
    ensures e.Asked? && Handled(s, e.request).1 && ClassOf(KindOf(e.request)) == Some(c) ==> !UsedFlag(s, c)
  {
    if e.Asked? && e.request.Request? { UsedFlagHandled(s, e.request, KindOf(e.request), c); }
  }

  /** A write of a class has happened exactly when the guard marks it used. */
  lemma {:induction false} UsedMeansWrote(renewal: bool, events: seq<Event>, c: WriteClass)
    ensures UsedFlag(After(renewal, events), c) <==> WroteBefore(renewal, events, c)
  {
    if events != [] {
      var before, e := events[..|events| - 1], events[|events| - 1];
      assert events == before + [e];
      UsedMeansWrote(renewal, before, c);
      UsedFlagMoves(renewal, After(renewal, before), e, c);
      forall i: nat | i < |before| ensures Wrote(renewal, events, i, c) <==> Wrote(renewal, before, i, c) {
        WroteInLonger(renewal, before, e, i, c);
      }
      assert Wrote(renewal, events, |before|, c) <==>
        e.Asked? && Handled(After(renewal, before), e.request).1 && e.request.Request?
          && ClassOf(KindOf(e.request)) == Some(c);
    }
  }

  /** Over any sequence of events the guard lets at most one create, one edit and one scan through. */
  lemma AtMostOneWrite(renewal: bool, events: seq<Event>, i: nat, j: nat, c: WriteClass)
    requires Wrote(renewal, events, i, c) && Wrote(renewal, events, j, c)
    ensures i == j
  {
    if i != j {
      var a, b := if i < j then i else j, if i < j then j else i;
      var upTo := events[..b];
      assert upTo[..a] == events[..a];
      assert Wrote(renewal, upTo, a, c);
      UsedMeansWrote(renewal, upTo, c);
      UsedFlagMoves(renewal, After(renewal, upTo), events[b], c);
    }
  }

  lemma {:induction false} ArmedOnlyAfterCreate(renewal: bool, events: seq<Event>)
    ensures LastScan(renewal, events).Some? ==> !renewal && WroteBefore(renewal, events, Creates)
    ensures LastEdit(renewal, events).Some? ==> renewal || WroteBefore(renewal, events, Creates)
  {
    if events != [] {
      var before := events[..|events| - 1];
      ArmedOnlyAfterCreate(renewal, before);
      if k :| 0 <= k < |before| && Wrote(renewal, before, k, Creates) {
        assert events == before + [events[|events| - 1]];
        WroteInLonger(renewal, before, events[|events| - 1], k, Creates);
      }
    }
  }

  /** What a one-shot's flags mean, `go` being the tenant it was last armed for by the calls alone. */
  predicate ShotFaithful(one: OneShot, go: Option<string>) {
    (one.armed ==> !one.used && one.target == go && go.Some?) && (!one.used ==> (one.armed <==> go.Some?))
  }

  predicate CreateFaithful(renewal: bool, s: State, go: bool) {
    (s.armed <==> !renewal && go && !s.createUsed) && (renewal ==> !s.createUsed)
  }

  ghost predicate Faithful(renewal: bool, events: seq<Event>, s: State) {
    && CreateFaithful(renewal, s, LastArm(events))
    && ShotFaithful(s.edit, LastEdit(renewal, events))
    && ShotFaithful(s.scan, LastScan(renewal, events))
    && (renewal ==> !s.scan.used)
  }

  lemma HandledStaysFaithful(renewal: bool, s: State, r: Request, kind: Kind, go: bool, edit: Option<string>,
      scan: Option<string>)
    requires r.Request? && CreateFaithful(renewal, s, go) && ShotFaithful(s.edit, edit) && ShotFaithful(s.scan, scan)
    requires renewal ==> !s.scan.used && scan.None?
    ensures var t := HandledAs(s, r, kind).0;
            && CreateFaithful(renewal, t, go) && ShotFaithful(t.edit, edit) && ShotFaithful(t.scan, scan)
            && (renewal ==> !t.scan.used)
  {
  }

  function NextEdit(renewal: bool, created: bool, e: Event, go: Option<string>): Option<string> {
    match e case ArmEdit(id) => (if renewal || created then Some(id) else None) case DisarmEdit => None case _ => go
  }

  function NextScan(renewal: bool, created: bool, e: Event, go: Option<string>): Option<string> {
    match e case ArmScan(id) => (if !renewal && created then Some(id) else None) case DisarmScan => None case _ => go
  }

  lemma EventStaysFaithful(renewal: bool, s: State, e: Event, go: bool, edit: Option<string>, scan: Option<string>)
    requires CreateFaithful(renewal, s, go) && ShotFaithful(s.edit, edit) && ShotFaithful(s.scan, scan)
    requires edit.Some? ==> renewal || s.createUsed
    requires (scan.Some? ==> !renewal && s.createUsed) && (renewal ==> !s.scan.used)
    ensures var t := Moved(renewal, s, e);
            && CreateFaithful(renewal, t, match e case ArmCreate => true case DisarmCreate => false case _ => go)
            && ShotFaithful(t.edit, NextEdit(renewal, s.createUsed, e, edit))
            && ShotFaithful(t.scan, NextScan(renewal, s.createUsed, e, scan)) && (renewal ==> !t.scan.used)
  {
    if e.Asked? && e.request.Request? {
      HandledStaysFaithful(renewal, s, e.request, KindOf(e.request), go, edit, scan);
    }
  }

  lemma {:induction false} FlagsAreFaithful(renewal: bool, events: seq<Event>)
    ensures Faithful(renewal, events, After(renewal, events))
  {
    if events != [] {
      var before, e := events[..|events| - 1], events[|events| - 1];
      var s := After(renewal, before);
      FlagsAreFaithful(renewal, before);
      UsedMeansWrote(renewal, before, Creates);
      ArmedOnlyAfterCreate(renewal, before);
      EventStaysFaithful(renewal, s, e, LastArm(before), LastEdit(renewal, before), LastScan(renewal, before));
    }
  }

  /**
    Exactly which requests are continued, over any sequence of events: a create while armed, a scan or an edit of
    exactly the tenant armed last, each once; and a request of no write kind when the read-only decision lets it pass.
  */
  lemma WhatPasses(renewal: bool, events: seq<Event>, i: nat)
    requires i < |events| && events[i].Asked? && events[i].request.Request?
    ensures var r := events[i].request;
            var before := events[..i];
            Continued(renewal, events, i) <==>
              match KindOf(r)
              case CreatePost => !renewal && LastArm(before) && !WroteBefore(renewal, before, Creates)
              case EditOf(id) => LastEdit(renewal, before) == Some(id) && !WroteBefore(renewal, before, Edits)
              case ScanOf(id) => LastScan(renewal, before) == Some(id) && !WroteBefore(renewal, before, Scans)
              case Other => ReadOnly(r)
  {
    var before := events[..i];
    FlagsAreFaithful(renewal, before);
    UsedMeansWrote(renewal, before, Creates);
    UsedMeansWrote(renewal, before, Edits);
    UsedMeansWrote(renewal, before, Scans);
  }

  // ----- in terms of verb, site and path ----------------------------------------------------------------------------

  predicate ProductionPost(r: Request) { r.Request? && r.verb == "POST" && r.site.Production? }

  /** Twenty-four small hexadecimal digits. */
  predicate TenantId(id: string) {
    |id| == 24 && forall i :: 0 <= i < 24 ==> '0' <= id[i] <= '9' || 'a' <= id[i] <= 'f'
  }

  /** One to sixty-four letters, digits, underscores and hyphens. */
  predicate CampaignId(id: string) {
    1 <= |id| <= 64
    && forall i :: 0 <= i < |id| ==>
      'a' <= id[i] <= 'z' || 'A' <= id[i] <= 'Z' || '0' <= id[i] <= '9' || id[i] == '_' || id[i] == '-'
  }

  predicate CreateRequest(r: Request) { ProductionPost(r) && r.path == "/api/v1/backoffice/account/add" }

  predicate EditRequest(r: Request, id: string) {
    ProductionPost(r) && TenantId(id) && r.path == "/api/v1/backoffice/account/" + id + "/edit"
  }

  predicate ScanRequest(r: Request, id: string) {
    ProductionPost(r) && CampaignId(id)
    && r.path == "/api/v1/backoffice/account/" + id + "/campaign/executeReconCampaign"
  }

  lemma BetweenExactly(path: string, prefix: string, suffix: string, id: string)
    ensures Between(path, prefix, suffix) == Some(id) <==> path == prefix + id + suffix
  {
    if Between(path, prefix, suffix) == Some(id) {
      assert path == path[..|prefix|] + path[|prefix|..|path| - |suffix|] + path[|path| - |suffix|..];
    }
    if path == prefix + id + suffix {
      assert path[|path| - |suffix|..] == suffix && path[..|prefix|] == prefix;
    }
  }

  /** No path has both endings, and the create's has neither. */
  lemma EndingsDiffer(path: string, a: string, b: string)
    ensures !(path == ACCOUNT_PREFIX + a + EDIT_SUFFIX && path == ACCOUNT_PREFIX + b + SCAN_SUFFIX)
    ensures path == CREATE_PATH ==> path != ACCOUNT_PREFIX + a + EDIT_SUFFIX && path != ACCOUNT_PREFIX + a + SCAN_SUFFIX
  {
    if path == ACCOUNT_PREFIX + a + EDIT_SUFFIX { assert path[|path| - 1] == 't'; }
    if path == ACCOUNT_PREFIX + b + SCAN_SUFFIX { assert path[|path| - 1] == 'n'; }
    if path == ACCOUNT_PREFIX + a + SCAN_SUFFIX { assert path[|path| - 1] == 'n'; }
  }

  lemma EditKindExactly(r: Request, id: string)
    requires r.Request?
    ensures KindOf(r) == EditOf(id) <==> EditRequest(r, id)
  {
    BetweenExactly(r.path, ACCOUNT_PREFIX, EDIT_SUFFIX, id);
  }

  lemma ScanKindExactly(r: Request, id: string)
    requires r.Request?
    ensures KindOf(r) == ScanOf(id) <==> ScanRequest(r, id)
  {
    BetweenExactly(r.path, ACCOUNT_PREFIX, SCAN_SUFFIX, id);
    var edit := Between(r.path, ACCOUNT_PREFIX, EDIT_SUFFIX);
    if edit.Some? {
      BetweenExactly(r.path, ACCOUNT_PREFIX, EDIT_SUFFIX, edit.value);
      EndingsDiffer(r.path, edit.value, id);
    }
  }

  lemma CreateKindExactly(r: Request)
    requires r.Request?
    ensures KindOf(r) == CreatePost <==> CreateRequest(r)
  {
    var edit, scan := Between(r.path, ACCOUNT_PREFIX, EDIT_SUFFIX), Between(r.path, ACCOUNT_PREFIX, SCAN_SUFFIX);
    if edit.Some? {
      BetweenExactly(r.path, ACCOUNT_PREFIX, EDIT_SUFFIX, edit.value);
      EndingsDiffer(r.path, edit.value, "");
    }
    if scan.Some? {
      BetweenExactly(r.path, ACCOUNT_PREFIX, SCAN_SUFFIX, scan.value);
      EndingsDiffer(r.path, scan.value, "");
    }
  }

  /** A read of the production site or its assets, or the one table search sent as a POST. */
  predicate ReadRequest(r: Request) {
    r.Request?
    && (((r.verb == "GET" || r.verb == "HEAD") && !r.site.Elsewhere?)
        || (ProductionPost(r) && r.path == "/api/v1/backoffice/getAllDetailedAccounts" && r.readBody))
  }

  lemma OtherIsNoWrite(r: Request)
    requires r.Request?
    ensures KindOf(r) == Other && ReadOnly(r) <==> ReadRequest(r)
  {
    if r.path == TABLE_READ_PATH { assert r.path[19] == 'g' && ACCOUNT_PREFIX[19] == 'a'; }
  }

  /**
    The whole guard in terms of what goes over the network: a request is continued exactly when it is a read, or the
    create while armed, or an edit or scan of exactly the tenant armed last, each of the three once.
  */
  lemma ContinuedExactly(renewal: bool, events: seq<Event>, i: nat)
    requires i < |events| && events[i].Asked?
    ensures var r := events[i].request;
            var before := events[..i];
            Continued(renewal, events, i) <==>
              ReadRequest(r)
              || (CreateRequest(r) && !renewal && LastArm(before) && !WroteBefore(renewal, before, Creates))
              || (exists id :: EditRequest(r, id) && LastEdit(renewal, before) == Some(id)
                               && !WroteBefore(renewal, before, Edits))
              || (exists id :: ScanRequest(r, id) && LastScan(renewal, before) == Some(id)
                               && !WroteBefore(renewal, before, Scans))
  {
    var r := events[i].request;
    if r.Request? {
      WhatPasses(renewal, events, i);
      OtherIsNoWrite(r);
      CreateKindExactly(r);
      forall id ensures KindOf(r) == EditOf(id) <==> EditRequest(r, id) { EditKindExactly(r, id); }
      forall id ensures KindOf(r) == ScanOf(id) <==> ScanRequest(r, id) { ScanKindExactly(r, id); }
    }
  }

  /** What counts as a write having passed: a continued request of that verb, site and path. */
  lemma WroteExactly(renewal: bool, events: seq<Event>, i: nat)
    ensures Wrote(renewal, events, i, Creates) <==> Continued(renewal, events, i) && CreateRequest(events[i].request)
    ensures Wrote(renewal, events, i, Edits) <==>
      Continued(renewal, events, i) && exists id :: EditRequest(events[i].request, id)
    ensures Wrote(renewal, events, i, Scans) <==>
      Continued(renewal, events, i) && exists id :: ScanRequest(events[i].request, id)
  {
    if Continued(renewal, events, i) && events[i].request.Request? {
      var r := events[i].request;
      CreateKindExactly(r);
      forall id ensures KindOf(r) == EditOf(id) <==> EditRequest(r, id) { EditKindExactly(r, id); }
      forall id ensures KindOf(r) == ScanOf(id) <==> ScanRequest(r, id) { ScanKindExactly(r, id); }
    }
  }

  /** In a create run edit and scan come only after the create; in a renewal neither a create nor a scan ever passes. */
  lemma WritesInOrder(renewal: bool, events: seq<Event>, i: nat)
    requires Wrote(renewal, events, i, Edits) || Wrote(renewal, events, i, Scans) || Wrote(renewal, events, i, Creates)
    ensures !renewal && !Wrote(renewal, events, i, Creates) ==> WroteBefore(renewal, events[..i], Creates)
    ensures renewal ==> Wrote(renewal, events, i, Edits)
  {
    WhatPasses(renewal, events, i);
    ArmedOnlyAfterCreate(renewal, events[..i]);
  }

  // ----- nothing is dropped silently ---------------------------------------------------------------------------------

  function Readable(events: seq<Event>): nat {
    if events == [] then 0
    else Readable(events[..|events| - 1])
         + (if events[|events| - 1].Asked? && events[|events| - 1].request.Request? then 1 else 0)
  }

  function Passes(renewal: bool, events: seq<Event>): nat {
    if events == [] then 0
    else Passes(renewal, events[..|events| - 1]) + (if Continued(renewal, events, |events| - 1) then 1 else 0)
  }

  lemma RefusedCounts(s: State, r: Request)
    requires r.Request?
    ensures |Refused(s, r).blocked| == |s.blocked| + 1
  {
  }

  lemma BlockedOrPassedAs(s: State, r: Request, kind: Kind)
    requires r.Request?
    ensures |HandledAs(s, r, kind).0.blocked| == |s.blocked| + (if HandledAs(s, r, kind).1 then 0 else 1)
  {
    RefusedCounts(s, r);
  }

  lemma BlockedOrPassed(s: State, r: Request)
    ensures |Handled(s, r).0.blocked| == |s.blocked| + (if r.Request? && !Handled(s, r).1 then 1 else 0)
    ensures r.Unreadable? ==> !Handled(s, r).1
  {
    if r.Request? { BlockedOrPassedAs(s, r, KindOf(r)); }
  }

  lemma BlockedMoves(renewal: bool, s: State, e: Event)
    ensures |Moved(renewal, s, e).blocked|
         == |s.blocked| + (if e.Asked? && e.request.Request? && !Handled(s, e.request).1 then 1 else 0)
    ensures e.Asked? && Handled(s, e.request).1 ==> e.request.Request?
  {
    if e.Asked? { BlockedOrPassed(s, e.request); }
  }

  /** Every readable request was either continued or counted as blocked under its method and path. */
  lemma {:induction false} EveryRequestCounted(renewal: bool, events: seq<Event>)
    ensures Readable(events) == Passes(renewal, events) + |After(renewal, events).blocked|
  {
    if events != [] {
      EveryRequestCounted(renewal, events[..|events| - 1]);
      BlockedMoves(renewal, After(renewal, events[..|events| - 1]), events[|events| - 1]);
    }
  }

  // ----- what the guard has on record --------------------------------------------------------------------------------

  /** Where a request is filed: under its method and path, or apart when it goes elsewhere. */
  predicate FiledUnder(r: Request, place: Place) {
    r.Request? && r.verb == place.0 && place.1 == if r.site.Production? then r.path else "<other-origin>"
  }

  predicate ApiRequest(r: Request) { r.Request? && r.site.Production? && Contains(r.path, "/api/") }

  function CallsAt(renewal: bool, events: seq<Event>, place: Place): nat {
    if events == [] then 0 else
    var last := |events| - 1;
    CallsAt(renewal, events[..last], place)
    + (if Continued(renewal, events, last) && ApiRequest(events[last].request)
      && FiledUnder(events[last].request, place)
       then 1 else 0)
  }

  function AbortsAt(renewal: bool, events: seq<Event>, place: Place): nat {
    if events == [] then 0 else
    var last := |events| - 1;
    AbortsAt(renewal, events[..last], place)
    + (if events[last].Asked? && !Continued(renewal, events, last) && FiledUnder(events[last].request, place)
       then 1 else 0)
  }

  function OtherPasses(renewal: bool, events: seq<Event>): nat {
    if events == [] then 0 else
    var last := |events| - 1;
    OtherPasses(renewal, events[..last])
    + (if Continued(renewal, events, last) && !ApiRequest(events[last].request) then 1 else 0)
  }

  /** The statuses of the answers from a place that came after its first call. */
  function Heard(renewal: bool, events: seq<Event>, place: Place): set<int> {
    if events == [] then {} else
    var before, e := events[..|events| - 1], events[|events| - 1];
    Heard(renewal, before, place)
    + (if e.Response? && e.place == place && CallsAt(renewal, before, place) > 0 then {e.status} else {})
  }

  function PagesOpened(events: seq<Event>): nat {
    if events == [] then 0
    else PagesOpened(events[..|events| - 1]) + (if events[|events| - 1].Opened? then 1 else 0)
  }

  lemma WritesAreApi(r: Request)
    requires r.Request? && (CreateRequest(r) || (exists id :: EditRequest(r, id)) || exists id :: ScanRequest(r, id))
    ensures ApiRequest(r)
  {
    assert "/api/" <= r.path[0..];
  }

  lemma ApiIsContained(path: string)
    ensures IsApi(path) <==> Contains(path, "/api/")
  {
    if i :| 0 <= i <= |path| && ApiAt(path, i) { assert "/api/" <= path[i..]; }
    if i :| 0 <= i <= |path| && "/api/" <= path[i..] {
      assert path[i..i + 5] == path[i..][..5];
      assert ApiAt(path, i);
    }
  }

  lemma NoApiElsewhere()
    ensures !IsApi("<other-origin>")
  {
    if i :| 0 <= i <= 14 && ApiAt("<other-origin>", i) {
      var part := "<other-origin>"[i..i + 5];
      assert part[0] == '/' && part[0] == "<other-origin>"[i];
    }
  }

  lemma ApiMeans(r: Request)
    requires r.Request?
    ensures IsApi(PlaceOf(r).1) <==> ApiRequest(r)
  {
    ApiIsContained(r.path);
    NoApiElsewhere();
  }

  function CountOf(calls: map<Place, Calls>, place: Place): nat { if place in calls then calls[place].count else 0 }

  function StatusesOf(calls: map<Place, Calls>, place: Place): set<int> {
    if place in calls then calls[place].statuses else {}
  }

  /** The state changed as one request filed once: under its calls, among the other reads, or under its aborts. */
  predicate Filed(s: State, t: State, r: Request, passed: bool, api: bool, place: Place) {
    && CountOf(t.calls, place) == CountOf(s.calls, place) + (if passed && api && FiledUnder(r, place) then 1 else 0)
    && StatusesOf(t.calls, place) == StatusesOf(s.calls, place)
    && t.blocked[place] == s.blocked[place] + (if !passed && FiledUnder(r, place) then 1 else 0)
    && t.otherReads == s.otherReads + (if passed && !api then 1 else 0)
    && t.popups == s.popups
  }

  lemma KindFiled(s: State, r: Request, kind: Kind, api: bool, place: Place)
    requires r.Request? && (kind != Other ==> api) && (api <==> IsApi(PlaceOf(r).1))
    ensures Filed(s, HandledAs(s, r, kind).0, r, HandledAs(s, r, kind).1, api, place)
  {
  }

  lemma WriteKindsAreApi(r: Request)
    requires r.Request? && KindOf(r) != Other
    ensures ApiRequest(r)
  {
    CreateKindExactly(r);
    match KindOf(r)
    case EditOf(id) => EditKindExactly(r, id); WritesAreApi(r);
    case ScanOf(id) => ScanKindExactly(r, id); WritesAreApi(r);
    case CreatePost => WritesAreApi(r);
  }

  lemma RequestFiled(s: State, r: Request, place: Place)
    requires r.Request?
    ensures Filed(s, Handled(s, r).0, r, Handled(s, r).1, ApiRequest(r), place)
  {
    if KindOf(r) != Other { WriteKindsAreApi(r); }
    ApiMeans(r);
    KindFiled(s, r, KindOf(r), ApiRequest(r), place);
  }

  /** A place is on record exactly when it was called. */
  predicate OnRecord(s: State, place: Place) { place in s.calls ==> s.calls[place].count > 0 }

  /** The state changed as by an answer or a page that opened. */
  predicate Noted(s: State, t: State, e: Event, place: Place) {
    && CountOf(t.calls, place) == CountOf(s.calls, place) && t.blocked == s.blocked && t.otherReads == s.otherReads
    && t.popups == s.popups + (if e.Opened? then 1 else 0)
    && StatusesOf(t.calls, place)
       == StatusesOf(s.calls, place)
          + (if e.Response? && e.place == place && CountOf(s.calls, place) > 0 then {e.status} else {})
  }

  lemma OtherMoves(renewal: bool, s: State, e: Event, place: Place)
    requires OnRecord(s, place) && !e.Asked?
    ensures OnRecord(Moved(renewal, s, e), place) && Noted(s, Moved(renewal, s, e), e, place)
  {
  }

  lemma RequestMoves(s: State, r: Request, place: Place)
    requires OnRecord(s, place)
    ensures OnRecord(Handled(s, r).0, place)
    ensures if r.Request? then Filed(s, Handled(s, r).0, r, Handled(s, r).1, ApiRequest(r), place)
            else Handled(s, r) == (s, false)
  {
    if r.Request? {
      RequestFiled(s, r, place);
      StaysOnRecord(s, r, KindOf(r), place);
    }
  }

  lemma StaysOnRecord(s: State, r: Request, kind: Kind, place: Place)
    requires OnRecord(s, place) && r.Request?
    ensures OnRecord(HandledAs(s, r, kind).0, place)
  {
  }

  /**
    The guard's record is exact, over every sequence of events: each place counts the API requests that were continued
    there and holds the statuses answered since the first of them, each abort is counted under its place, and every
    other request that passed and every page that opened is counted too.
  */
  lemma {:induction false} RecordIsExact(renewal: bool, events: seq<Event>, place: Place)
    ensures var s := After(renewal, events);
            && CountOf(s.calls, place) == CallsAt(renewal, events, place) && OnRecord(s, place)
            && StatusesOf(s.calls, place) == Heard(renewal, events, place)
            && s.blocked[place] == AbortsAt(renewal, events, place)
            && s.otherReads == OtherPasses(renewal, events) && s.popups == PagesOpened(events)
  {
    if events != [] {
      var before, e := events[..|events| - 1], events[|events| - 1];
      RecordIsExact(renewal, before, place);
      if e.Asked? {
        RequestMoves(After(renewal, before), e.request, place);
      } else {
        OtherMoves(renewal, After(renewal, before), e, place);
      }
    }
  }
}
