/** The one Confirm click, judged from what the request guard saw; the page may send any requests at any time. */
module ConfirmClick {
  import opened Text
  import opened RequestGuard

  datatype PageEvent = Asks(request: Request) | Answers(place: Place, status: int) | Opens

  function AsEvent(e: PageEvent): Event {
    match e case Asks(r) => Asked(r) case Answers(place, status) => Response(place, status) case Opens => Opened
  }

  /** The guard after the page's events alone. */
  function Fed(renewal: bool, s: State, events: seq<PageEvent>): State {
    if events == [] then s
    else Moved(renewal, Fed(renewal, s, events[..|events| - 1]), AsEvent(events[|events| - 1]))
  }

  method DeliverOne(guard: LiveRequestGuard, e: PageEvent)
    modifies guard
    ensures guard.View() == Moved(guard.renewal, old(guard.View()), AsEvent(e))
  {
    match e
    case Asks(r) => var continued := guard.Handle(r);
    case Answers(place, status) => guard.OnResponse(place, status);
    case Opens => guard.OnPopup();
  }

  method Deliver(guard: LiveRequestGuard, events: seq<PageEvent>)
    modifies guard
    ensures guard.View() == Fed(guard.renewal, old(guard.View()), events)
  {
    for i := 0 to |events|
      invariant guard.View() == Fed(guard.renewal, old(guard.View()), events[..i])
    {
      assert events[..i + 1][..i] == events[..i];
      DeliverOne(guard, events[i]);
    }
    assert events[..|events|] == events;
  }

  // ----- the click log ----------------------------------------------------------------------------------------------

  const CONFIRM_CREATE := "confirm_create"
  const CONFIRM_LABEL := "Confirm"
  const OPEN_FORM := "open_create_form"
  const ALLOWED_CLICKS := {OPEN_FORM, "cancel_create_form", "expand_advanced", "set_toggle", "sort_table_header"}
  const FORBIDDEN_WORDS := {"confirm", "submit", "save"}

  function Folded(name: string): string { Collapsed(Lower(name)) }

  predicate NamesAWrite(name: string) {
    exists word :: word in FORBIDDEN_WORDS && Contains(Folded(name), word)
  }

  predicate ReadClick(kind: string, name: string, force: bool) {
    !force && kind in ALLOWED_CLICKS && !NamesAWrite(name) && (kind == OPEN_FORM ==> Folded(name) == "add account")
  }

  /** `word` from the `i`-th letter on, in letters of either case. */
  predicate Spells(name: string, i: nat, word: string) {
    i + |word| <= |name|
    && forall k :: 0 <= k < |word| ==> name[i + k] == word[k] || name[i + k] as int + 32 == word[k] as int
  }

  predicate SmallLetters(word: string) { word != [] && forall k :: 0 <= k < |word| ==> 'a' <= word[k] <= 'z' }

  lemma SpelledExactly(name: string, i: nat, word: string)
    requires SmallLetters(word) && i <= |name|
    ensures word <= Lower(name)[i..] <==> Spells(name, i, word)
  {
    var tail := Lower(name)[i..];
    if |word| <= |tail| {
      forall k | 0 <= k < |word|
        ensures tail[k] == word[k] <==> name[i + k] == word[k] || name[i + k] as int + 32 == word[k] as int
      {
        LowerExactly(name, i + k);
      }
      if word <= tail { assert forall k :: 0 <= k < |word| ==> tail[k] == word[k]; }
      if Spells(name, i, word) { assert tail[..|word|] == word; }
    }
  }

  lemma FoldedHolds(name: string, word: string)
    requires SmallLetters(word)
    ensures Text.Contains(Folded(name), word) <==> exists i: nat :: i <= |name| && Spells(name, i, word)
  {
    WordKept(Lower(name), word);
    forall i: nat | i <= |name| ensures word <= Lower(name)[i..] <==> Spells(name, i, word) {
      SpelledExactly(name, i, word);
    }
  }

  lemma FoldedIsTwoWords(name: string, a: string, b: string)
    requires SmallLetters(a) && SmallLetters(b)
    ensures Folded(name) == a + " " + b <==> Words(Lower(name)) == [a, b]
  {
    CollapsedJoinsWords(Lower(name));
    WordsOfCollapsed(Lower(name));
    TwoWords(a, b);
  }

  lemma OpensTheForm(name: string)
    ensures Folded(name) == "add account" <==> Words(Lower(name)) == ["add", "account"]
  {
    FoldedIsTwoWords(name, "add", "account");
    assert "add account" == "add" + " " + "account";
  }

  /**
    A click other than the confirming one goes through exactly unforced, on one of five kinds of control, and on no
    control whose name has "confirm", "submit" or "save" anywhere in it, in letters of any case; and the form is opened
    only by the control of those two words.
  */
  lemma ReadClickExactly(kind: string, name: string, force: bool)
    ensures ReadClick(kind, name, force) <==>
      && !force
      && (kind == "open_create_form" || kind == "cancel_create_form" || kind == "expand_advanced"
        || kind == "set_toggle"
          || kind == "sort_table_header")
      && (forall i: nat :: i <= |name| ==>
            !Spells(name, i, "confirm") && !Spells(name, i, "submit") && !Spells(name, i, "save"))
      && (kind == "open_create_form" ==> Words(Lower(name)) == ["add", "account"])
  {
    FoldedHolds(name, "confirm");
    FoldedHolds(name, "submit");
    FoldedHolds(name, "save");
    OpensTheForm(name);
    assert NamesAWrite(name) <==> Text.Contains(Folded(name), "confirm") || Text.Contains(Folded(name), "submit")
                                  || Text.Contains(Folded(name), "save") by
    {
      assert "confirm" in FORBIDDEN_WORDS && "submit" in FORBIDDEN_WORDS && "save" in FORBIDDEN_WORDS;
    }
  }

  datatype ClickAnswer = Made | ClickRefused | ClickRaised

  class LiveClickLog {
    var confirmClicks: nat
    var kinds: seq<string>

    constructor ()
      ensures confirmClicks == 0 && kinds == []
    {
      confirmClicks, kinds := 0, [];
    }

    /**
      One click through the log. A control that names a confirm, submit or save is reached only as the exact "Confirm"
      of the create, and only while none was reached before; that one is counted even when the click raises.
    */
    method Click(kind: string, name: string, force: bool, guard: LiveRequestGuard, during: seq<PageEvent>, raises: bool)
      returns (answer: ClickAnswer)
      modifies this, guard
      ensures answer.ClickRefused? <==>
        !(ReadClick(kind, name, force)
          || (kind == CONFIRM_CREATE && name == CONFIRM_LABEL && !force && old(confirmClicks) == 0))
      ensures answer.ClickRefused? ==> guard.View() == old(guard.View())
      ensures !answer.ClickRefused? ==> guard.View() == Fed(guard.renewal, old(guard.View()), during)
      ensures !answer.ClickRefused? ==> (answer.ClickRaised? <==> raises)
      ensures confirmClicks == old(confirmClicks) + (if kind == CONFIRM_CREATE && !answer.ClickRefused? then 1 else 0)
      ensures kinds == old(kinds) + (if answer.Made? then [kind] else [])
      ensures !answer.ClickRefused? && NamesAWrite(name) ==> old(confirmClicks) == 0 && confirmClicks == 1
    {
      if kind != CONFIRM_CREATE {
        if !ReadClick(kind, name, force) { return ClickRefused; }
      } else {
        if force || name != CONFIRM_LABEL || confirmClicks >= 1 { return ClickRefused; }
        confirmClicks := confirmClicks + 1;
      }
      Deliver(guard, during);
      if raises { return ClickRaised; }
      kinds := kinds + [kind];
      return Made;
    }
  }

  // ----- one create, seen through the guard -------------------------------------------------------------------------

  /** The create's own entry exists exactly when a create was let through, once, and then nothing is armed. */
  predicate Tracked(s: State) {
    && (s.createUsed <==> CREATE_PLACE in s.calls)
    && (s.createUsed ==> !s.armed && s.calls[CREATE_PLACE].count == 1)
  }

  /** What page events alone can do to the create part of the guard. */
  predicate Progress(s: State, t: State) {
    && Tracked(t) && (s.createUsed ==> t.createUsed) && (t.armed ==> s.armed)
    && (t.createUsed ==> s.createUsed || s.armed)
    && s.createBlocked <= t.createBlocked && s.popups <= t.popups
  }

  /** No other request that passes is counted under the create's method and path. */
  lemma OtherPlace(r: Request)
    requires r.Request? && !KindOf(r).CreatePost? && (KindOf(r).Other? ==> ReadOnly(r))
    ensures PlaceOf(r) != CREATE_PLACE
  {
    assert |CREATE_PATH| == 30 && |ACCOUNT_PREFIX| == 27 && |SCAN_SUFFIX| == 30;
  }

  lemma PassedOther(s: State, r: Request)
    requires r.Request? && PlaceOf(r) != CREATE_PLACE
    ensures CREATE_PLACE in Passed(s, r).calls <==> CREATE_PLACE in s.calls
    ensures CREATE_PLACE in s.calls ==> Passed(s, r).calls[CREATE_PLACE] == s.calls[CREATE_PLACE]
  {
  }

  lemma RequestKeepsTracked(s: State, r: Request)
    requires Tracked(s)
    ensures Progress(s, Handled(s, r).0)
  {
    if r.Request? {
      match KindOf(r)
      case CreatePost =>
      case EditOf(id) => OtherPlace(r); PassedOther(s, r);
      case ScanOf(id) => OtherPlace(r); PassedOther(s, r);
      case Other => if ReadOnly(r) { OtherPlace(r); PassedOther(s, r); }
    }
  }

  lemma PageEventKeepsTracked(renewal: bool, s: State, e: PageEvent)
    requires Tracked(s)
    ensures Progress(s, Moved(renewal, s, AsEvent(e)))
  {
    if e.Asks? { RequestKeepsTracked(s, e.request); }
  }

  lemma {:induction false} PageKeepsTracked(renewal: bool, s: State, events: seq<PageEvent>)
    requires Tracked(s)
    ensures Progress(s, Fed(renewal, s, events))
  {
    if events != [] {
      PageKeepsTracked(renewal, s, events[..|events| - 1]);
      PageEventKeepsTracked(renewal, Fed(renewal, s, events[..|events| - 1]), events[|events| - 1]);
    }
  }

  /** Every guard that only its own methods changed is tracked. */
  lemma {:induction false} GuardsAreTracked(renewal: bool, events: seq<Event>)
    ensures Tracked(After(renewal, events))
  {
    if events != [] {
      var before, e := events[..|events| - 1], events[|events| - 1];
      GuardsAreTracked(renewal, before);
      if e.Asked? { RequestKeepsTracked(After(renewal, before), e.request); }
    }
  }

  // ----- the click --------------------------------------------------------------------------------------------------

  datatype Outcome = Submitted | NotClicked | Uncertain

  /** What looking for service workers and further pages answered. */
  datatype PageLook = PageLook(noWorker: bool, otherPages: bool)

  predicate Alone(look: PageLook, popups: nat) { look.noWorker && popups == 0 && !look.otherPages }

  datatype Poll = Poll(events: seq<PageEvent>, raises: bool)

  /**
    The page during one call: what it sends before the click, whether the control was found usable, what it sends while
    the click and each wait run, whether they raise, and what it sends while it is looked at afterwards.
  */
  datatype Script = Script(
    before: seq<PageEvent>, usable: bool, look: PageLook, during: seq<PageEvent>, clickRaises: bool,
    polls: seq<Poll>, after: seq<PageEvent>, lookAfter: PageLook)

  const RESPONSE_POLLS := 40

  predicate HasAnswer(s: State) { CREATE_PLACE in s.calls && s.calls[CREATE_PLACE].statuses != {} }

  /** The guard after waiting: until the create has an answer, a wait raises or the polls are used up. */
  function Awaited(renewal: bool, s: State, polls: seq<Poll>, left: nat): State
    decreases left
  {
    if left == 0 || HasAnswer(s) || polls == [] then s else
    var t := Fed(renewal, s, polls[0].events);
    if polls[0].raises then t else Awaited(renewal, t, polls[1..], left - 1)
  }

  /** The guard after the click ran, armed just before it. */
  function Clicked(renewal: bool, s: State, script: Script): State {
    Fed(renewal, Moved(renewal, Fed(renewal, s, script.before), ArmCreate), script.during)
  }

  function Disarmed(s: State): State { s.(armed := false) }

  /** The guard as it is when the create is judged: disarmed, at once when the click raised, else after the wait. */
  function Judged(renewal: bool, s: State, script: Script): State {
    Disarmed(if script.clickRaises then Clicked(renewal, s, script)
             else Awaited(renewal, Clicked(renewal, s, script), script.polls, RESPONSE_POLLS))
  }

  /** No create was aborted, and the one create was answered 200 and nothing else. */
  predicate AnsweredOk(s: State) {
    s.createBlocked == 0 && CREATE_PLACE in s.calls && s.calls[CREATE_PLACE] == Calls(1, {200})
  }

  predicate Clean(renewal: bool, s: State, script: Script) {
    !script.clickRaises && AnsweredOk(Judged(renewal, s, script))
  }

  /** The guard at the end: only after a clean answer the page is looked at once more. */
  function Ending(renewal: bool, s: State, script: Script): State {
    var judged := Judged(renewal, s, script);
    if Clean(renewal, s, script) then Fed(renewal, judged, script.after) else judged
  }

  lemma DisarmingOnly(renewal: bool, s: State)
    ensures Moved(renewal, s, DisarmCreate) == Disarmed(s)
  {
  }

  method DisarmNow(guard: LiveRequestGuard)
    modifies guard
    ensures guard.View() == Disarmed(old(guard.View()))
  {
    DisarmingOnly(guard.renewal, guard.View());
    guard.Disarm();
  }

  /** One wait; the answer tells whether it raised. */
  method WaitOnce(guard: LiveRequestGuard, polls: seq<Poll>) returns (raised: bool)
    modifies guard
    ensures guard.View() == if polls == [] then old(guard.View())
                            else Fed(guard.renewal, old(guard.View()), polls[0].events)
    ensures raised <==> polls != [] && polls[0].raises
  {
    if polls == [] { return false; }
    Deliver(guard, polls[0].events);
    return polls[0].raises;
  }

  /** Waits for the answer to the create, then disarms, whatever the page does. */
  method AwaitResponse(guard: LiveRequestGuard, polls: seq<Poll>)
    modifies guard
    ensures guard.View() == Disarmed(Awaited(guard.renewal, old(guard.View()), polls, RESPONSE_POLLS))
  {
    var coming := polls;
    for i := 0 to RESPONSE_POLLS
      invariant Awaited(guard.renewal, guard.View(), coming, RESPONSE_POLLS - i)
                == Awaited(guard.renewal, old(guard.View()), polls, RESPONSE_POLLS)
    {
      if HasAnswer(guard.View()) { break; }
      var raised := WaitOnce(guard, coming);
      if raised { coming := []; break; }
      coming := if coming == [] then [] else coming[1..];
    }
    DisarmNow(guard);
  }

  /** The answer to a click that was made and did not raise. */
  method JudgeAnswer(guard: LiveRequestGuard, script: Script) returns (outcome: Outcome)
    modifies guard
    ensures var judged := Disarmed(Awaited(guard.renewal, old(guard.View()), script.polls, RESPONSE_POLLS));
            && guard.View() == (if AnsweredOk(judged) then Fed(guard.renewal, judged, script.after) else judged)
            && outcome ==
               if AnsweredOk(judged) && Alone(script.lookAfter, guard.View().popups) then Submitted else Uncertain
  {
    AwaitResponse(guard, script.polls);
    var seen := guard.View();
    if seen.createBlocked != 0 || CREATE_PLACE !in seen.calls || seen.calls[CREATE_PLACE].count != 1
       || seen.calls[CREATE_PLACE].statuses != {200} {
      return Uncertain;
    }
    Deliver(guard, script.after);
    return if Alone(script.lookAfter, guard.View().popups) then Submitted else Uncertain;
  }

  lemma ArmedInVain(renewal: bool, s: State)
    requires !s.armed
    ensures Disarmed(Moved(renewal, s, ArmCreate)) == s
  {
  }

  method ArmAndMakeClick(guard: LiveRequestGuard, clicks: LiveClickLog, script: Script) returns (answer: ClickAnswer)
    modifies guard, clicks
    ensures answer.ClickRefused? <==> old(clicks.confirmClicks) != 0
    ensures clicks.confirmClicks == old(clicks.confirmClicks) + (if answer.ClickRefused? then 0 else 1)
    ensures !answer.ClickRefused? ==> (answer.ClickRaised? <==> script.clickRaises)
    ensures var ready := Moved(guard.renewal, old(guard.View()), ArmCreate);
            guard.View() == if answer.ClickRefused? then ready else Fed(guard.renewal, ready, script.during)
  {
    guard.Arm();
    answer := clicks.Click(CONFIRM_CREATE, CONFIRM_LABEL, false, guard, script.during, script.clickRaises);
  }

  /** Arm, click once, disarm and judge. */
  method ArmAndClick(guard: LiveRequestGuard, clicks: LiveClickLog, script: Script, ghost start: State)
    returns (outcome: Outcome)
    requires guard.View() == Fed(guard.renewal, start, script.before) && !guard.View().armed
    modifies guard, clicks
    ensures outcome.NotClicked? <==> old(clicks.confirmClicks) != 0
    ensures clicks.confirmClicks == old(clicks.confirmClicks) + (if outcome.NotClicked? then 0 else 1)
    ensures guard.View() == if outcome.NotClicked? then old(guard.View()) else Ending(guard.renewal, start, script)
    ensures outcome.Submitted? <==>
      !outcome.NotClicked? && Clean(guard.renewal, start, script) && Alone(script.lookAfter, guard.View().popups)
  {
    ArmedInVain(guard.renewal, guard.View());
    var answer := ArmAndMakeClick(guard, clicks, script);
    if answer.ClickRefused? {
      DisarmNow(guard);
      return NotClicked;
    }
    if answer.ClickRaised? {
      DisarmNow(guard);
      return Uncertain;
    }
    outcome := JudgeAnswer(guard, script);
  }

  /**
    "Not clicked" exactly when the control or the page was not in order or a click was made before; then only what the
    page sent before has reached the guard. Otherwise one click was made and the guard is where the script leads it.
    "Submitted" exactly when at judgement no create had been aborted and the one create was answered 200 and nothing
    else, and no further page or worker shows up; everything else is uncertain. The guard ends disarmed in every case.
  */
  method ClickConfirmOnce(guard: LiveRequestGuard, clicks: LiveClickLog, script: Script) returns (outcome: Outcome)
    requires Tracked(guard.View()) && !guard.armed && !guard.createUsed
    modifies guard, clicks
    ensures outcome.NotClicked? <==>
      !script.usable || !script.look.noWorker || script.look.otherPages
      || Fed(guard.renewal, old(guard.View()), script.before).popups != 0 || old(clicks.confirmClicks) != 0
    ensures clicks.confirmClicks == old(clicks.confirmClicks) + (if outcome.NotClicked? then 0 else 1)
    ensures outcome.NotClicked? ==>
      guard.View() == Fed(guard.renewal, old(guard.View()), script.before) && !guard.createUsed
    ensures !outcome.NotClicked? ==> guard.View() == Ending(guard.renewal, old(guard.View()), script)
    ensures outcome.Submitted? <==>
      !outcome.NotClicked? && Clean(guard.renewal, old(guard.View()), script)
      && script.lookAfter.noWorker && !script.lookAfter.otherPages && guard.popups == 0
    ensures outcome.Submitted? ==>
      var judged := Judged(guard.renewal, old(guard.View()), script);
      judged.createBlocked == 0 && CREATE_PLACE in judged.calls && judged.calls[CREATE_PLACE] == Calls(1, {200})
    ensures !guard.armed && Tracked(guard.View())
  {
    ghost var start := guard.View();
    Deliver(guard, script.before);
    PageKeepsTracked(guard.renewal, start, script.before);
    if !(script.usable && Alone(script.look, guard.popups)) { return NotClicked; }
    outcome := ArmAndClick(guard, clicks, script, start);
    EndsDisarmed(guard.renewal, start, script);
  }

  lemma {:induction false} AwaitKeepsTracked(renewal: bool, s: State, polls: seq<Poll>, left: nat)
    requires Tracked(s)
    ensures Progress(s, Awaited(renewal, s, polls, left))
    decreases left
  {
    if left != 0 && !HasAnswer(s) && polls != [] {
      PageKeepsTracked(renewal, s, polls[0].events);
      if !polls[0].raises { AwaitKeepsTracked(renewal, Fed(renewal, s, polls[0].events), polls[1..], left - 1); }
    }
  }

  /** Whatever the page does, the guard ends disarmed, with at most the one create let through. */
  lemma EndsDisarmed(renewal: bool, s: State, script: Script)
    requires Tracked(s) && !s.armed && !s.createUsed
    ensures !Ending(renewal, s, script).armed && Tracked(Ending(renewal, s, script))
    ensures Ending(renewal, s, script).createUsed ==> Judged(renewal, s, script).createUsed
  {
    PageKeepsTracked(renewal, s, script.before);
    var ready := Moved(renewal, Fed(renewal, s, script.before), ArmCreate);
    PageKeepsTracked(renewal, ready, script.during);
    AwaitKeepsTracked(renewal, Clicked(renewal, s, script), script.polls, RESPONSE_POLLS);
    PageKeepsTracked(renewal, Judged(renewal, s, script), script.after);
  }

  // ----- what the page did ------------------------------------------------------------------------------------------

  predicate IsCreate(e: PageEvent) { e.Asks? && CreateRequest(e.request) }

  /** How many creates the page asked for, and the statuses answered to a create after the first one was asked. */
  datatype Account = Account(creates: nat, statuses: set<int>)

  function Told(a: Account, e: PageEvent): Account {
    if IsCreate(e) then a.(creates := a.creates + 1)
    else if e.Answers? && e.place == ("POST", "/api/v1/backoffice/account/add")
      && a.creates > 0 then a.(statuses := a.statuses + {e.status})
    else a
  }

  function AccountOf(events: seq<PageEvent>): Account {
    if events == [] then Account(0, {}) else Told(AccountOf(events[..|events| - 1]), events[|events| - 1])
  }

  /** What an armed guard shows of an account: the first create let through, every further one aborted. */
  predicate Shows(t: State, a: Account, blockedBefore: nat) {
    && (t.createUsed <==> a.creates > 0) && (t.armed <==> a.creates == 0)
    && t.createBlocked == blockedBefore + (if a.creates > 0 then a.creates - 1 else 0)
    && (if a.creates > 0 then CREATE_PLACE in t.calls && t.calls[CREATE_PLACE] == Calls(1, a.statuses)
        else CREATE_PLACE !in t.calls && a.statuses == {})
  }

  lemma OtherRequestShows(t: State, r: Request, a: Account, blockedBefore: nat)
    requires Shows(t, a, blockedBefore) && r.Request? && !KindOf(r).CreatePost?
    ensures Shows(Handled(t, r).0, a, blockedBefore)
  {
    match KindOf(r)
    case EditOf(id) => OtherPlace(r); PassedOther(t, r);
    case ScanOf(id) => OtherPlace(r); PassedOther(t, r);
    case Other => if ReadOnly(r) { OtherPlace(r); PassedOther(t, r); }
  }

  lemma EventShows(renewal: bool, t: State, e: PageEvent, a: Account, blockedBefore: nat)
    requires Shows(t, a, blockedBefore)
    ensures Shows(Moved(renewal, t, AsEvent(e)), Told(a, e), blockedBefore)
  {
    if e.Asks? && e.request.Request? {
      CreateKindExactly(e.request);
      if !IsCreate(e) { OtherRequestShows(t, e.request, a, blockedBefore); }
    }
  }

  lemma {:induction false} ArmedGuardShows(renewal: bool, s: State, events: seq<PageEvent>)
    requires s.armed && !s.createUsed && CREATE_PLACE !in s.calls
    ensures Shows(Fed(renewal, s, events), AccountOf(events), s.createBlocked)
  {
    if events != [] {
      var before := events[..|events| - 1];
      ArmedGuardShows(renewal, s, before);
      EventShows(renewal, Fed(renewal, s, before), events[|events| - 1], AccountOf(before), s.createBlocked);
    }
  }

  lemma OtherRequestBlocksNoCreate(t: State, r: Request)
    requires r.Request? && !KindOf(r).CreatePost?
    ensures Handled(t, r).0.createBlocked == t.createBlocked
  {
  }

  /** A disarmed guard aborts and counts every create. */
  lemma {:induction false} DisarmedGuardShows(renewal: bool, s: State, events: seq<PageEvent>)
    requires Tracked(s) && !s.armed && !s.createUsed
    ensures var t := Fed(renewal, s, events);
            !t.armed && !t.createUsed && Tracked(t) && t.createBlocked == s.createBlocked + AccountOf(events).creates
  {
    if events != [] {
      var before, e := events[..|events| - 1], events[|events| - 1];
      DisarmedGuardShows(renewal, s, before);
      PageEventKeepsTracked(renewal, Fed(renewal, s, before), e);
      if e.Asks? && e.request.Request? {
        CreateKindExactly(e.request);
        if !IsCreate(e) { OtherRequestBlocksNoCreate(Fed(renewal, s, before), e.request); }
      }
    }
  }

  /** What the page sent while the answer was awaited. */
  function Heard(renewal: bool, s: State, polls: seq<Poll>, left: nat): seq<PageEvent>
    decreases left
  {
    if left == 0 || HasAnswer(s) || polls == [] then [] else
    polls[0].events
    + (if polls[0].raises then [] else Heard(renewal, Fed(renewal, s, polls[0].events), polls[1..], left - 1))
  }

  lemma {:induction false} FedBoth(renewal: bool, s: State, a: seq<PageEvent>, b: seq<PageEvent>)
    ensures Fed(renewal, s, a + b) == Fed(renewal, Fed(renewal, s, a), b)
    decreases |b|
  {
    if b == [] {
      assert a + b == a;
    } else {
      assert (a + b)[..|a + b| - 1] == a + b[..|b| - 1];
      FedBoth(renewal, s, a, b[..|b| - 1]);
    }
  }

  lemma {:induction false} AwaitedIsHeard(renewal: bool, s: State, polls: seq<Poll>, left: nat)
    ensures Awaited(renewal, s, polls, left) == Fed(renewal, s, Heard(renewal, s, polls, left))
    decreases left
  {
    if left != 0 && !HasAnswer(s) && polls != [] {
      var t := Fed(renewal, s, polls[0].events);
      if polls[0].raises {
        assert polls[0].events + [] == polls[0].events;
      } else {
        AwaitedIsHeard(renewal, t, polls[1..], left - 1);
        FedBoth(renewal, s, polls[0].events, Heard(renewal, t, polls[1..], left - 1));
      }
    }
  }

  function FedPolls(renewal: bool, s: State, polls: seq<Poll>): State {
    if polls == [] then s
    else Fed(renewal, FedPolls(renewal, s, polls[..|polls| - 1]), polls[|polls| - 1].events)
  }

  /** What the guard has heard in answer to the create. */
  function CreateStatuses(s: State): set<int> {
    StatusesOf(s.calls, ("POST", "/api/v1/backoffice/account/add"))
  }

  lemma {:induction false} FedPollsFirst(renewal: bool, s: State, first: Poll, more: seq<Poll>)
    ensures FedPolls(renewal, s, [first] + more) == FedPolls(renewal, Fed(renewal, s, first.events), more)
    decreases |more|
  {
    var all := [first] + more;
    if more == [] {
      assert all[..0] == [];
    } else {
      assert all[..|all| - 1] == [first] + more[..|more| - 1];
      FedPollsFirst(renewal, s, first, more[..|more| - 1]);
    }
  }

  /** The first `n` waits are those that run: every one before the last left the create unanswered and did not raise. */
  predicate RunsTo(renewal: bool, s: State, polls: seq<Poll>, left: nat, n: nat) {
    && n <= |polls| && n <= left
    && (forall k: nat :: k < n ==> SilentBefore(renewal, s, polls, k))
    && (forall k :: 0 <= k < n - 1 ==> !polls[k].raises)
    && (n == |polls| || n == left || !SilentBefore(renewal, s, polls, n) || (n > 0 && polls[n - 1].raises))
  }

  lemma PollsAfterFirst(renewal: bool, s: State, polls: seq<Poll>, k: nat)
    requires polls != [] && k < |polls|
    ensures FedPolls(renewal, s, polls[..k + 1]) == FedPolls(renewal, Fed(renewal, s, polls[0].events), polls[1..][..k])
  {
    FedPollsFirst(renewal, s, polls[0], polls[1..][..k]);
    assert polls[..k + 1] == [polls[0]] + polls[1..][..k];
  }

  /** Nothing was heard in answer to the create before wait `k`. */
  predicate SilentBefore(renewal: bool, s: State, polls: seq<Poll>, k: nat) {
    k <= |polls| && CreateStatuses(FedPolls(renewal, s, polls[..k])) == {}
  }

  lemma SilentOneMore(renewal: bool, s: State, polls: seq<Poll>, k: nat)
    requires polls != [] && k < |polls|
    ensures SilentBefore(renewal, s, polls, k + 1)
       <==> SilentBefore(renewal, Fed(renewal, s, polls[0].events), polls[1..], k)
  {
    PollsAfterFirst(renewal, s, polls, k);
  }

  lemma RunsOneMore(renewal: bool, s: State, polls: seq<Poll>, left: nat, n: nat)
    requires polls != [] && left > 0 && CreateStatuses(s) == {} && !polls[0].raises
    requires RunsTo(renewal, Fed(renewal, s, polls[0].events), polls[1..], left - 1, n)
    ensures RunsTo(renewal, s, polls, left, n + 1)
  {
    var t, rest := Fed(renewal, s, polls[0].events), polls[1..];
    forall k: nat | k <= n ensures SilentBefore(renewal, s, polls, k + 1) <==> SilentBefore(renewal, t, rest, k) {
      SilentOneMore(renewal, s, polls, k);
    }
    assert SilentBefore(renewal, s, polls, 0);
    forall k: nat | k < n + 1 ensures SilentBefore(renewal, s, polls, k) {
      if k > 0 { assert SilentBefore(renewal, t, rest, k - 1); }
    }
    forall k | 0 <= k < n ensures !polls[k].raises {
      if k > 0 { assert rest[k - 1] == polls[k]; }
    }
    assert n > 0 ==> rest[n - 1] == polls[n];
  }

  lemma AnswerMeans(s: State)
    ensures HasAnswer(s) <==> CreateStatuses(s) != {}
  {
  }

  lemma RunsNone(renewal: bool, s: State, polls: seq<Poll>, left: nat)
    requires left == 0 || CreateStatuses(s) != {} || polls == []
    ensures RunsTo(renewal, s, polls, left, 0) && FedPolls(renewal, s, polls[..0]) == s
  {
  }

  lemma RunsOnce(renewal: bool, s: State, polls: seq<Poll>, left: nat)
    requires polls != [] && left > 0 && CreateStatuses(s) == {} && polls[0].raises
    ensures RunsTo(renewal, s, polls, left, 1)
    ensures FedPolls(renewal, s, polls[..1]) == Fed(renewal, s, polls[0].events)
  {
    assert polls[..1] == [polls[0]] && polls[..1][..0] == [];
  }

  lemma {:induction false} AwaitedRunsTo(renewal: bool, s: State, polls: seq<Poll>, left: nat) returns (n: nat)
    ensures RunsTo(renewal, s, polls, left, n) && Awaited(renewal, s, polls, left) == FedPolls(renewal, s, polls[..n])
    decreases left
  {
    AnswerMeans(s);
    if left == 0 || HasAnswer(s) || polls == [] {
      RunsNone(renewal, s, polls, left);
      n := 0;
    } else if polls[0].raises {
      RunsOnce(renewal, s, polls, left);
      n := 1;
    } else {
      n := AwaitedRunsTo(renewal, Fed(renewal, s, polls[0].events), polls[1..], left - 1);
      RunsOneMore(renewal, s, polls, left, n);
      PollsAfterFirst(renewal, s, polls, n);
      n := n + 1;
    }
  }

  /**
    A create whose click did not raise is judged after the first wait that brought it an answer or raised, at the latest
    after forty.
  */
  lemma JudgedAfterWaits(renewal: bool, s: State, script: Script) returns (n: nat)
    requires !script.clickRaises
    ensures RunsTo(renewal, Clicked(renewal, s, script), script.polls, 40, n)
    ensures Judged(renewal, s, script)
         == FedPolls(renewal, Clicked(renewal, s, script), script.polls[..n]).(armed := false)
  {
    n := AwaitedRunsTo(renewal, Clicked(renewal, s, script), script.polls, 40);
  }

  /** All the page sent from the click to the judgement. */
  function Since(renewal: bool, s: State, script: Script): seq<PageEvent> {
    script.during + Heard(renewal, Clicked(renewal, s, script), script.polls, RESPONSE_POLLS)
  }

  /**
    The answer is clean exactly when the page asked for no create before the click, for exactly one from the click to
    the judgement, and that one was answered 200 and nothing else. Through the guard of a renewal it never is.
  */
  lemma CleanExactly(renewal: bool, s: State, script: Script)
    requires Tracked(s) && !s.armed && !s.createUsed
    ensures Clean(renewal, s, script) <==>
      !renewal && !script.clickRaises && s.createBlocked == 0 && AccountOf(script.before).creates == 0
      && AccountOf(Since(renewal, s, script)) == Account(1, {200})
  {
    DisarmedGuardShows(renewal, s, script.before);
    var ready := Moved(renewal, Fed(renewal, s, script.before), ArmCreate);
    var clicked := Clicked(renewal, s, script);
    AwaitedIsHeard(renewal, clicked, script.polls, RESPONSE_POLLS);
    FedBoth(renewal, ready, script.during, Heard(renewal, clicked, script.polls, RESPONSE_POLLS));
    if renewal {
      DisarmedGuardShows(renewal, ready, Since(renewal, s, script));
    } else {
      ArmedGuardShows(renewal, ready, Since(renewal, s, script));
    }
  }
}
