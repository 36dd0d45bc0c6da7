/** A consume that still carries an old clock reading can be overtaken, and then one CO can be created twice. */
module CreateStale {
  import opened Wrappers
  import opened Approvals
  import opened CreateGate
  import opened CreateRun
  import opened CreateWorld
  import CreateOnce
  import ApprovalLaws
  import Text
  import opened Domains

  function Judgement(q: Inputs, m: Records): Effect { Judged(q, Facts(None, Stored(m)), None) }

  /** A live attempt up to its re-checked form, every check passed. */
  function Checks(q: Inputs, m: Records): seq<Effect> {
    [Judgement(q, m), FilledForm, Judgement(q, m), CheckedDuplicate, CheckedSource, Judgement(q, m), RecheckedForm]
  }

  function Ending(q: Inputs): seq<Effect> {
    [WroteIntent(IntentEntry(q), true), ConsumedApproval(ConsumeOf(q), ConsumeDone), ClickedConfirm(Submitted)]
  }

  function Acts(id: nat, effects: seq<Effect>): seq<Event> {
    if effects == [] then [] else [Act(id, effects[0], false)] + Acts(id, effects[1..])
  }

  lemma {:induction false} AfterBoth(gate: Gate, w: World, first: seq<Event>, second: seq<Event>)
    ensures After(gate, w, first + second) == After(gate, After(gate, w, first), second)
    decreases |first|
  {
    if first == [] {
      assert first + second == second;
    } else {
      assert (first + second)[1..] == first[1..] + second;
      AfterBoth(gate, Step(gate, w, first[0]), first[1..], second);
    }
  }

  lemma AfterThree(gate: Gate, w: World, a: Event, b: Event, c: Event)
    ensures After(gate, w, [a, b, c]) == Step(gate, Step(gate, Step(gate, w, a), b), c)
  {
    var w1 := Step(gate, w, a);
    var w2 := Step(gate, w1, b);
    assert [a, b, c][1..] == [b, c] && [b, c][1..] == [c] && [c][1..] == [];
    assert After(gate, w2, [c]) == After(gate, Step(gate, w2, c), []);
    assert After(gate, w1, [b, c]) == After(gate, w2, [c]);
  }

  lemma ChecksFollow(q: Inputs, m: Records)
    ensures Follow(Checks(q, m)) == Some(FormRechecked(q))
  {
    var c := Checks(q, m);
    assert c[..1] == [Judgement(q, m)] && c[..1][..0] == [];
    assert Follow(c[..1]) == Some(GatedOnce);
    assert c[..2] == c[..1] + [FilledForm];
    FollowStep(c[..1], FilledForm);
    assert c[..3] == c[..2] + [Judgement(q, m)];
    FollowStep(c[..2], Judgement(q, m));
    assert c[..4] == c[..3] + [CheckedDuplicate];
    FollowStep(c[..3], CheckedDuplicate);
    assert c[..5] == c[..4] + [CheckedSource];
    FollowStep(c[..4], CheckedSource);
    assert c[..6] == c[..5] + [Judgement(q, m)];
    FollowStep(c[..5], Judgement(q, m));
    assert c == c[..6] + [RecheckedForm];
    FollowStep(c[..6], RecheckedForm);
  }

  lemma {:induction false} PrefixFollows(trace: seq<Effect>, n: nat)
    requires n <= |trace| && Follow(trace).Some?
    ensures Follow(trace[..n]).Some?
    decreases |trace|
  {
    if n < |trace| {
      PrefixFollows(trace[..|trace| - 1], n);
      assert trace[..|trace| - 1][..n] == trace[..n];
    } else {
      assert trace[..n] == trace;
    }
  }

  /** A check that passed touches neither the file nor the records. */
  lemma TakesCheck(gate: Gate, w: World, id: nat, a: Attempt, e: Effect)
    requires id in w.attempts && w.attempts[id] == a && a.alive && a.prior == [] && Follow(a.trace + [e]).Some?
    requires gate(a.q, Facts(None, Stored(w.approvals)), false).None? && a.q.now <= w.clock
      && e in Checks(a.q, w.approvals)
    ensures Step(gate, w, Act(id, e, false)) == w.(attempts := w.attempts[id := a.(trace := a.trace + [e])])
  {
    assert e == Judgement(a.q, w.approvals) || e == FilledForm || e == CheckedDuplicate || e == CheckedSource
      || e == RecheckedForm;
    assert MayAct(gate, w, a, e);
  }

  lemma FirstOfRest(trace: seq<Effect>, todo: seq<Effect>)
    requires Follow(trace + todo).Some? && todo != []
    ensures Follow(trace + [todo[0]]).Some? && trace + [todo[0]] + todo[1..] == trace + todo
  {
    PrefixFollows(trace + todo, |trace| + 1);
    assert (trace + todo)[..|trace| + 1] == trace + [todo[0]];
  }

  /** The attempt takes all of `todo`, none of which touches the file or the records. */
  lemma {:induction false} TakesChecks(gate: Gate, w: World, id: nat, a: Attempt, todo: seq<Effect>)
    requires id in w.attempts && w.attempts[id] == a && a.alive && a.prior == []
    requires Follow(a.trace + todo).Some? && gate(a.q, Facts(None, Stored(w.approvals)), false).None?
      && a.q.now <= w.clock
    requires forall e :: e in todo ==> e in Checks(a.q, w.approvals)
    ensures After(gate, w, Acts(id, todo)) == w.(attempts := w.attempts[id := a.(trace := a.trace + todo)])
    decreases |todo|
  {
    if todo == [] {
      assert a.trace + todo == a.trace;
    } else {
      FirstOfRest(a.trace, todo);
      TakesCheck(gate, w, id, a, todo[0]);
      var further := a.(trace := a.trace + [todo[0]]);
      TakesChecks(gate, w.(attempts := w.attempts[id := further]), id, further, todo[1..]);
      assert Acts(id, todo)[1..] == Acts(id, todo[1..]);
    }
  }

  /** The attempt went one effect further, and nothing else of any attempt changed. */
  predicate Went(w: World, v: World, id: nat, e: Effect) {
    id in w.attempts && v.attempts == Moved(w.attempts, id, e) && v.clock == w.clock
  }

  lemma IntentStep(gate: Gate, w: World, id: nat, q: Inputs) returns (v: World)
    requires id in w.attempts && w.attempts[id].alive && Follow(w.attempts[id].trace) == Some(FormRechecked(q))
    ensures v == Step(gate, w, Act(id, Ending(q)[0], false)) && Went(w, v, id, Ending(q)[0])
      && v.approvals == w.approvals
    ensures Follow(v.attempts[id].trace) == Some(Intended(q))
  {
    FollowStep(w.attempts[id].trace, Ending(q)[0]);
    v := Step(gate, w, Act(id, Ending(q)[0], false));
  }

  lemma ConsumeStep(gate: Gate, w: World, id: nat, q: Inputs) returns (v: World)
    requires id in w.attempts && w.attempts[id].alive && Follow(w.attempts[id].trace) == Some(Intended(q))
    requires Apply(w.approvals, ConsumeOf(q)).Some?
    ensures v == Step(gate, w, Act(id, Ending(q)[1], false)) && Went(w, v, id, Ending(q)[1])
    ensures v.approvals == Apply(w.approvals, ConsumeOf(q)).value
    ensures Follow(v.attempts[id].trace) == Some(Consumed)
  {
    FollowStep(w.attempts[id].trace, Ending(q)[1]);
    v := Step(gate, w, Act(id, Ending(q)[1], false));
  }

  lemma ClickStep(gate: Gate, w: World, id: nat, q: Inputs) returns (v: World)
    requires id in w.attempts && w.attempts[id].alive && Follow(w.attempts[id].trace) == Some(Consumed)
    ensures v == Step(gate, w, Act(id, Ending(q)[2], false)) && Went(w, v, id, Ending(q)[2])
      && v.approvals == w.approvals
    ensures ReallyClicked(v.attempts[id].trace)
  {
    FollowStep(w.attempts[id].trace, Ending(q)[2]);
    v := Step(gate, w, Act(id, Ending(q)[2], false));
    assert v.attempts[id].trace[|w.attempts[id].trace|] == ClickedConfirm(Submitted);
  }

  /** From its re-checked form an attempt whose consume the file accepts writes its intent, consumes and clicks. */
  lemma TakesEnding(gate: Gate, w: World, id: nat) returns (v: World)
    requires id in w.attempts && w.attempts[id].alive
      && Follow(w.attempts[id].trace) == Some(FormRechecked(w.attempts[id].q))
    requires Apply(w.approvals, ConsumeOf(w.attempts[id].q)).Some?
    ensures v == After(gate, w, Acts(id, Ending(w.attempts[id].q)))
    ensures id in v.attempts && ReallyClicked(v.attempts[id].trace) && v.attempts[id].q == w.attempts[id].q
    ensures v.approvals == Apply(w.approvals, ConsumeOf(w.attempts[id].q)).value && v.clock == w.clock
    ensures forall j :: j != id && j in w.attempts ==> j in v.attempts && v.attempts[j] == w.attempts[j]
  {
    var q := w.attempts[id].q;
    var w1 := IntentStep(gate, w, id, q);
    var w2 := ConsumeStep(gate, w1, id, q);
    v := ClickStep(gate, w2, id, q);
    EndingEvents(gate, w, w1, w2, v, id, q);
  }

  lemma EndingEvents(gate: Gate, w: World, w1: World, w2: World, w3: World, id: nat, q: Inputs)
    requires w1 == Step(gate, w, Act(id, Ending(q)[0], false)) && w2 == Step(gate, w1, Act(id, Ending(q)[1], false))
    requires w3 == Step(gate, w2, Act(id, Ending(q)[2], false))
    ensures After(gate, w, Acts(id, Ending(q))) == w3
  {
    var e := Ending(q);
    var a := Acts(id, e);
    assert a == [Act(id, e[0], false)] + Acts(id, e[1..]);
    assert e[1..][1..] == [e[2]] && Acts(id, e[1..]) == [Act(id, e[1], false)] + Acts(id, [e[2]]);
    assert Acts(id, [e[2]]) == [Act(id, e[2], false)];
    assert a == [Act(id, e[0], false), Act(id, e[1], false), Act(id, e[2], false)];
    AfterThree(gate, w, a[0], a[1], a[2]);
  }

  /** An approval is issued, and an attempt under it starts and takes all its checks. */
  function Begin(x: IssueRequest, q: Inputs, id: nat, m: Records): seq<Event> {
    [Tick(q.now), OwnerActs(Issue(x, q.now)), Launch(id, q)] + Acts(id, Checks(q, m))
  }

  lemma IssuedAndLaunched(gate: Gate, w: World, x: IssueRequest, q: Inputs, id: nat) returns (v: World)
    requires w.clock <= q.now && CanIssue(w.approvals, x, q.now) && id !in w.attempts && q.approvalRef == x.ref
    requires HistoryOf(w.histories, q.co) == []
    ensures v == After(gate, w, [Tick(q.now), OwnerActs(Issue(x, q.now)), Launch(id, q)])
    ensures v.clock == q.now && v.approvals == Issued(w.approvals, x, q.now) && v.histories == w.histories
    ensures v.attempts == w.attempts[id := Attempt(q, [], [], true)]
  {
    var w1 := Step(gate, w, Tick(q.now));
    var w2 := Step(gate, w1, OwnerActs(Issue(x, q.now)));
    assert w2.approvals == Issued(w.approvals, x, q.now) && w2.clock == q.now;
    v := Step(gate, w2, Launch(id, q));
    AfterThree(gate, w, Tick(q.now), OwnerActs(Issue(x, q.now)), Launch(id, q));
  }

  lemma AllChecksTaken(gate: Gate, w: World, q: Inputs, id: nat)
    requires id in w.attempts && w.attempts[id] == Attempt(q, [], [], true)
    requires gate(q, Facts(None, Stored(w.approvals)), false).None? && q.now <= w.clock
    ensures After(gate, w, Acts(id, Checks(q, w.approvals)))
         == w.(attempts := w.attempts[id := Attempt(q, [], Checks(q, w.approvals), true)])
  {
    var checks := Checks(q, w.approvals);
    ChecksFollow(q, w.approvals);
    assert [] + checks == checks;
    TakesChecks(gate, w, id, Attempt(q, [], [], true), checks);
  }

  lemma Begins(gate: Gate, w: World, x: IssueRequest, q: Inputs, id: nat, m: Records) returns (v: World)
    requires w.clock <= q.now && CanIssue(w.approvals, x, q.now) && id !in w.attempts && q.approvalRef == x.ref
    requires HistoryOf(w.histories, q.co) == [] && m == Issued(w.approvals, x, q.now)
    requires gate(q, Facts(None, Stored(m)), false).None?
    ensures v == After(gate, w, Begin(x, q, id, m))
    ensures v.clock == q.now && v.approvals == m && v.histories == w.histories
    ensures v.attempts == w.attempts[id := Attempt(q, [], Checks(q, m), true)]
  {
    var launched := IssuedAndLaunched(gate, w, x, q, id);
    AfterBoth(gate, w, [Tick(q.now), OwnerActs(Issue(x, q.now)), Launch(id, q)], Acts(id, Checks(q, m)));
    AllChecksTaken(gate, launched, q, id);
    v := launched.(attempts := launched.attempts[id := Attempt(q, [], Checks(q, m), true)]);
  }

  /**
    Two attempts of one CO really click, whatever the gate: the first read its clock while its approval was valid;
    before it consumes, the owner has issued the next approval and a second attempt has gone all the way. The consume
    of the first is accepted because it carries the old reading.
  */
  lemma StaleConsumeClicksTwice(gate: Gate, x1: IssueRequest, x2: IssueRequest, q1: Inputs, q2: Inputs)
    returns (events: seq<Event>)
    requires 0 <= q1.now <= q2.now && q1.co == q2.co && q1.approvalRef == x1.ref && q2.approvalRef == x2.ref
    requires CanIssue(map[], x1, q1.now) && CanIssue(Issued(map[], x1, q1.now), x2, q2.now)
    requires var m1 := Issued(map[], x1, q1.now);
             var m2 := Issued(m1, x2, q2.now);
             && gate(q1, Facts(None, Stored(m1)), false).None? && gate(q2, Facts(None, Stored(m2)), false).None?
             && Apply(m2, ConsumeOf(q2)).Some? && Apply(Apply(m2, ConsumeOf(q2)).value, ConsumeOf(q1)).Some?
    ensures var w := After(gate, NOTHING, events);
            && 1 in w.attempts && 2 in w.attempts && CreateOnce.CoOf(w.attempts, 1) == CreateOnce.CoOf(w.attempts, 2)
            && ReallyClicked(w.attempts[1].trace) && ReallyClicked(w.attempts[2].trace)
    ensures CreateOnce.Overtaken(gate, NOTHING, events) != {}
  {
    var m1 := Issued(map[], x1, q1.now);
    var m2 := Issued(m1, x2, q2.now);
    var begin1, begin2 := Begin(x1, q1, 1, m1), Begin(x2, q2, 2, m2);
    var end1, end2 := Acts(1, Ending(q1)), Acts(2, Ending(q2));
    var w1 := Begins(gate, NOTHING, x1, q1, 1, m1);
    var w2 := Begins(gate, w1, x2, q2, 2, m2);
    ChecksFollow(q1, m1);
    ChecksFollow(q2, m2);
    var w3 := TakesEnding(gate, w2, 2);
    var w4 := TakesEnding(gate, w3, 1);
    events := begin1 + begin2 + end2 + end1;
    AfterBoth(gate, NOTHING, begin1 + begin2 + end2, end1);
    AfterBoth(gate, NOTHING, begin1 + begin2, end2);
    AfterBoth(gate, NOTHING, begin1, begin2);
    CreateOnce.TwoRealClicksMeanOvertaken(gate, events, 1, 2);
  }

  // ----- a concrete pair ---------------------------------------------------------------------------------------------

  function CeOnlyGate(): Gate { (q, facts, dryRun) => EvaluateGate(q, facts, dryRun, false) }

  function SampleRequest(ref: string): IssueRequest {
    IssueRequest(ref, "CO-1234", CeOnly, "r", "a", SECOND, None, false)
  }

  function SampleInputs(ref: string, now: int): Inputs {
    Inputs("CO-1234", CeOnly, ref, "r", Some("r"), now, Some(ref), Some(["a.b"]), true, None, Some(now), true, false,
      Some(0),
           true, false, true, true, "", None, "", None)
  }

  lemma LabelsOf(c: char, rest: string)
    ensures Labels([c] + rest) ==
      if c == '.' then [""] + Labels(rest) else [[c] + Labels(rest)[0]] + Labels(rest)[1..]
  {
    assert ([c] + rest)[1..] == rest;
  }

  lemma SampleLabels()
    ensures Labels("a.b") == ["a", "b"]
  {
    LabelsOf('b', "");
    LabelsOf('.', "b");
    LabelsOf('a', ".b");
    assert ['b'] + "" == "b" && ['.'] + "b" == ".b" && ['a'] + ".b" == "a.b";
    assert Labels("b") == ["b"];
    assert Labels(".b") == ["", "b"];
    assert ['a'] + "" == "a" && ["", "b"][1..] == ["b"];
  }

  lemma SamplePlain()
    ensures Plain("a.b") == "a.b"
  {
    assert Text.Lower("a.b") == "a.b";
  }

  lemma SampleDomain()
    ensures DomainsFit(Some(["a.b"]), true)
  {
    SampleLabels();
    SamplePlain();
  }

  lemma SampleGateOpens(m: Records, ref: string, now: int)
    requires ref in m && m[ref] == NewRecord(SampleRequest(ref), now) && ValidRecords(m) && now % SECOND == 0
    ensures CeOnlyGate()(SampleInputs(ref, now), Facts(None, Stored(m)), false).None?
    ensures Apply(m, ConsumeOf(SampleInputs(ref, now))) == Some(m[ref := Used(m[ref], now)])
  {
    SampleDomain();
  }

  function FirstFile(): Records { Issued(map[], SampleRequest("AAAAAA"), 0) }

  function SecondFile(): Records { Issued(FirstFile(), SampleRequest("BBBBBB"), 2 * SECOND) }

  lemma SampleFiles()
    ensures CanIssue(map[], SampleRequest("AAAAAA"), 0) && CanIssue(FirstFile(), SampleRequest("BBBBBB"), 2 * SECOND)
    ensures ValidRecords(FirstFile()) && ValidRecords(SecondFile())
    ensures "AAAAAA" in FirstFile() && FirstFile()["AAAAAA"] == NewRecord(SampleRequest("AAAAAA"), 0)
    ensures "AAAAAA" in SecondFile() && SecondFile()["AAAAAA"] == NewRecord(SampleRequest("AAAAAA"), 0)
    ensures "BBBBBB" in SecondFile() && SecondFile()["BBBBBB"] == NewRecord(SampleRequest("BBBBBB"), 2 * SECOND)
  {
    ApprovalLaws.NewRecordValid(SampleRequest("AAAAAA"), 0);
    ApprovalLaws.NewRecordValid(SampleRequest("BBBBBB"), 2 * SECOND);
    assert FirstFile().Keys == {"AAAAAA"} && SecondFile().Keys == {"AAAAAA", "BBBBBB"};
  }

  /** The first consume, with its old reading, after the second approval was used. */
  lemma OldConsumeAccepted()
    ensures var used := Apply(SecondFile(), ConsumeOf(SampleInputs("BBBBBB", 2 * SECOND)));
            used.Some? && Apply(used.value, ConsumeOf(SampleInputs("AAAAAA", 0))).Some?
  {
    SampleFiles();
    SampleGateOpens(SecondFile(), "BBBBBB", 2 * SECOND);
  }

  /**
    One second of validity, two seconds between clock reading and consume: the real gate lets CO-1234 be created
    twice.
  */
  lemma OneCoTwice() returns (events: seq<Event>)
    ensures var w := After(CeOnlyGate(), NOTHING, events);
            && 1 in w.attempts && 2 in w.attempts && CreateOnce.CoOf(w.attempts, 1) == CreateOnce.CoOf(w.attempts, 2)
            && ReallyClicked(w.attempts[1].trace) && ReallyClicked(w.attempts[2].trace)
  {
    SampleFiles();
    SampleGateOpens(FirstFile(), "AAAAAA", 0);
    SampleGateOpens(SecondFile(), "BBBBBB", 2 * SECOND);
    OldConsumeAccepted();
    events := StaleConsumeClicksTwice(CeOnlyGate(), SampleRequest("AAAAAA"), SampleRequest("BBBBBB"),
                                      SampleInputs("AAAAAA", 0), SampleInputs("BBBBBB", 2 * SECOND));
  }
}
