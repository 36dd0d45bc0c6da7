/**
  The three approval operations split into the steps between which another process can run: create the lock file, read,
  replace, unlink. Any number of processes, any interleaving, a crash or a failing call at any step.
*/
module ApprovalLock {
  import opened Wrappers
  import opened Approvals
  import ApprovalLaws

  datatype Answer = Locked | Unreadable | Refused | WriteFailed | Succeeded

  /** Where one process stands inside its current call; `Dead` is a process that stopped. */
  datatype Phase =
    | Idle
    | Holding(op: Operation)
    | Loaded(op: Operation, snapshot: Records)
    | Leaving(op: Operation, answer: Answer)
    | Dead

  datatype Lock = Free | CreatedBy(process: nat)

  /**
    `log` holds the operations whose replacement of the file happened, in order; `told` the answers given to callers.
  */
  datatype System = System(lock: Lock, content: Records, phases: map<nat, Phase>,
                           log: seq<Operation>, told: seq<(Operation, Answer)>)

  /** A write that raises may have landed all the same, when something fails after the file was replaced. */
  datatype Event =
    | Start(process: nat, op: Operation)
    | Read(process: nat, readable: bool)
    | Replace(process: nat, works: bool, landed: bool)
    | Unlink(process: nat, works: bool)
    | Crash(process: nat)

  function PhaseOf(s: System, p: nat): Phase {
    if p in s.phases then s.phases[p] else Idle
  }

  function Enter(s: System, p: nat, phase: Phase): System {
    s.(phases := s.phases[p := phase])
  }

  function WriteAnswer(works: bool): Answer { if works then Succeeded else WriteFailed }

  /** What the process of `e` would write, were it at the point of replacing the file. */
  function Decided(s: System, e: Event): Option<Records> {
    var phase := PhaseOf(s, e.process);
    if phase.Loaded? then Apply(phase.snapshot, phase.op) else None
  }

  /** One step; an event that the process is not in a position to take changes nothing. */
  function Step(s: System, e: Event): System {
    StepWith(s, e, Decided(s, e))
  }

  function StepWith(s: System, e: Event, next: Option<Records>): System {
    var phase := PhaseOf(s, e.process);
    match e
    case Start(p, op) =>
      if !phase.Idle? || !WellFormed(op) then s
      else if s.lock.Free? then Enter(s, p, Holding(op)).(lock := CreatedBy(p))
      else s.(told := s.told + [(op, Locked)])
    case Read(p, readable) =>
      if !phase.Holding? then s
      else if readable then Enter(s, p, Loaded(phase.op, s.content))
      else Enter(s, p, Leaving(phase.op, Unreadable))
    case Replace(p, works, landed) =>
      if !phase.Loaded? then s
      else if next.None? then Enter(s, p, Leaving(phase.op, Refused))
      else if works || landed then
        Enter(s, p, Leaving(phase.op, WriteAnswer(works))).(content := next.value, log := s.log + [phase.op])
      else Enter(s, p, Leaving(phase.op, WriteFailed))
    case Unlink(p, works) =>
      if !phase.Leaving? then s
      else Enter(s, p, Idle).(lock := if works then Free else s.lock, told := s.told + [(phase.op, phase.answer)])
    case Crash(p) => Enter(s, p, Dead)
  }

  function Run(s: System, events: seq<Event>): System
    decreases |events|
  {
    if events == [] then s else Run(Step(s, events[0]), events[1..])
  }

  function Initial(content: Records): System { System(Free, content, map[], [], []) }

  /**
    Every operation of `log` was accepted on exactly what the ones before it left, and `now` is what the last one
    left.
  */
  predicate Serial(first: Records, log: seq<Operation>, now: Records)
    decreases |log|
  {
    if log == [] then now == first
    else Apply(first, log[0]).Some? && Serial(Apply(first, log[0]).value, log[1..], now)
  }

  /** How many operations of `log` succeeded as a use of `ref` according to the answers given. */
  function ToldUses(told: seq<(Operation, Answer)>, ref: string): nat {
    if told == [] then 0
    else ToldUses(told[..|told| - 1], ref) + (if SaysUsed(told[|told| - 1], ref) then 1 else 0)
  }

  predicate SaysUsed(answer: (Operation, Answer), ref: string) {
    answer.0.Consume? && answer.0.ref == ref && answer.1.Succeeded?
  }

  function LoggedUses(log: seq<Operation>, ref: string): nat {
    if log == [] then 0
    else LoggedUses(log[..|log| - 1], ref) + (if log[|log| - 1].Consume? && log[|log| - 1].ref == ref then 1 else 0)
  }

  /** A process about to answer "succeeded" for a use of `ref`. */
  predicate Pending(phase: Phase, ref: string) {
    phase.Leaving? && phase.answer.Succeeded? && phase.op.Consume? && phase.op.ref == ref
  }

  predicate InSection(phase: Phase) { phase.Holding? || phase.Loaded? || phase.Leaving? }

  /** Only the process that created the lock file is between its creation and its removal. */
  ghost predicate Exclusive(s: System) {
    forall p: nat :: InSection(PhaseOf(s, p)) ==> s.lock == CreatedBy(p)
  }

  ghost predicate Invariant(first: Records, s: System) {
    && Exclusive(s)
    && (forall p: nat :: PhaseOf(s, p).Loaded? ==> PhaseOf(s, p).snapshot == s.content)
    && (forall p: nat :: InSection(PhaseOf(s, p)) ==> WellFormed(PhaseOf(s, p).op))
    && (forall i :: 0 <= i < |s.log| ==> WellFormed(s.log[i]))
    && Serial(first, s.log, s.content)
  }

  lemma {:induction false} SerialAppend(first: Records, log: seq<Operation>, now: Records, op: Operation)
    requires Serial(first, log, now) && Apply(now, op).Some?
    ensures Serial(first, log + [op], Apply(now, op).value)
    decreases |log|
  {
    if log == [] {
      assert (log + [op])[1..] == [];
    } else {
      assert (log + [op])[1..] == log[1..] + [op];
      SerialAppend(Apply(first, log[0]).value, log[1..], now, op);
    }
  }

  lemma StepKeepsInvariant(first: Records, s: System, e: Event)
    requires Invariant(first, s)
    ensures Invariant(first, Step(s, e))
  {
    var t := Step(s, e);
    assert forall p: nat :: p != e.process ==> PhaseOf(t, p) == PhaseOf(s, p);
    var phase := PhaseOf(s, e.process);
    if e.Replace? && t.log != s.log {
      SerialAppend(first, s.log, s.content, phase.op);
    }
  }

  lemma {:induction false} RunKeepsInvariant(first: Records, s: System, events: seq<Event>)
    requires Invariant(first, s)
    ensures Invariant(first, Run(s, events))
    decreases |events|
  {
    if events != [] {
      StepKeepsInvariant(first, s, events[0]);
      RunKeepsInvariant(first, Step(s, events[0]), events[1..]);
    }
  }

  /**
    No update is lost: after any interleaving the file holds exactly the result of applying, one after the other, the
    operations that replaced it, each accepted on the content the one before it left.
  */
  lemma NoLostUpdate(first: Records, events: seq<Event>)
    ensures var s := Run(Initial(first), events);
            Serial(first, s.log, s.content)
  {
    RunKeepsInvariant(first, Initial(first), events);
  }

  /** The operations that took effect are a sequential history, so all its laws hold of the shared file. */
  lemma {:induction false} SerialIsReplay(first: Records, log: seq<Operation>, now: Records)
    requires Serial(first, log, now)
    ensures now == Replay(first, log)
    decreases |log|
  {
    if log != [] { SerialIsReplay(Apply(first, log[0]).value, log[1..], now); }
  }

  /** Every file any process can ever read is sound: valid records, one end mark at most, windows that never overlap. */
  lemma SharedFileStaysSound(events: seq<Event>)
    ensures Sound(Run(Initial(map[]), events).content)
  {
    var s := Run(Initial(map[]), events);
    RunKeepsInvariant(map[], Initial(map[]), events);
    SerialIsReplay(map[], s.log, s.content);
    ApprovalLaws.ReplayKeepsSound(map[], s.log);
  }

  // ----- one use across all processes -------------------------------------------------------------------------------

  /** Answers "succeeded" given so far never outnumber the uses that reached the file. */
  ghost predicate Honest(s: System, ref: string) {
    && ToldUses(s.told, ref) <= LoggedUses(s.log, ref)
    && (forall p: nat :: Pending(PhaseOf(s, p), ref) ==> ToldUses(s.told, ref) < LoggedUses(s.log, ref))
  }

  lemma HonestWhenQuiet(s: System, t: System, p: nat, ref: string)
    requires Exclusive(s) && Honest(s, ref)
    requires t.told == s.told && t.log == s.log && t.phases == s.phases[p := PhaseOf(t, p)]
      && !Pending(PhaseOf(t, p), ref)
    ensures Honest(t, ref)
  {
    assert forall q: nat :: q != p ==> PhaseOf(t, q) == PhaseOf(s, q);
  }

  lemma HonestAfterReplace(s: System, p: nat, works: bool, next: Records, ref: string)
    requires Exclusive(s) && Honest(s, ref) && PhaseOf(s, p).Loaded?
    ensures var op := PhaseOf(s, p).op;
            Honest(Enter(s, p, Leaving(op, WriteAnswer(works))).(content := next, log := s.log + [op]), ref)
  {
    var op := PhaseOf(s, p).op;
    var t := Enter(s, p, Leaving(op, WriteAnswer(works))).(content := next, log := s.log + [op]);
    assert t.log[..|t.log| - 1] == s.log;
    assert forall q: nat :: q != p ==> PhaseOf(t, q) == PhaseOf(s, q);
  }

  lemma HonestAfterUnlink(s: System, p: nat, lock: Lock, ref: string)
    requires Exclusive(s) && Honest(s, ref) && PhaseOf(s, p).Leaving?
    ensures Honest(Enter(s, p, Idle).(lock := lock, told := s.told + [(PhaseOf(s, p).op, PhaseOf(s, p).answer)]), ref)
  {
    var t := Enter(s, p, Idle).(lock := lock, told := s.told + [(PhaseOf(s, p).op, PhaseOf(s, p).answer)]);
    assert t.told[..|t.told| - 1] == s.told;
    assert forall q: nat :: q != p ==> PhaseOf(t, q) == PhaseOf(s, q);
  }

  lemma HonestAfterRefusal(s: System, op: Operation, ref: string)
    requires Honest(s, ref)
    ensures Honest(s.(told := s.told + [(op, Locked)]), ref)
  {
    var t := s.(told := s.told + [(op, Locked)]);
    assert t.told[..|t.told| - 1] == s.told;
    assert forall q: nat :: PhaseOf(t, q) == PhaseOf(s, q);
  }

  lemma StepStaysHonest(s: System, e: Event, next: Option<Records>, ref: string)
    requires Exclusive(s) && Honest(s, ref)
    ensures Honest(StepWith(s, e, next), ref)
  {
    var t := StepWith(s, e, next);
    var phase := PhaseOf(s, e.process);
    if t != s {
      match e
      case Start(p, op) => if s.lock.Free? { HonestWhenQuiet(s, t, p, ref); } else { HonestAfterRefusal(s, op, ref); }
      case Read(p, _) => HonestWhenQuiet(s, t, p, ref);
      case Replace(p, works, landed) =>
        if next.Some? && (works || landed) {
          HonestAfterReplace(s, p, works, next.value, ref);
        } else {
          HonestWhenQuiet(s, t, p, ref);
        }
      case Unlink(p, _) => HonestAfterUnlink(s, p, t.lock, ref);
      case Crash(p) => HonestWhenQuiet(s, t, p, ref);
    }
  }

  lemma {:induction false} RunStaysHonest(first: Records, s: System, events: seq<Event>, ref: string)
    requires Invariant(first, s) && Honest(s, ref)
    ensures Honest(Run(s, events), ref)
    decreases |events|
  {
    if events != [] {
      StepKeepsInvariant(first, s, events[0]);
      StepStaysHonest(s, events[0], Decided(s, events[0]), ref);
      RunStaysHonest(first, Step(s, events[0]), events[1..], ref);
    }
  }

  lemma {:induction false} LoggedUsesAreUses(first: Records, log: seq<Operation>, now: Records, ref: string)
    requires Serial(first, log, now)
    ensures ApprovalLaws.Uses(first, log, ref) == LoggedUses(log, ref)
    decreases |log|
  {
    if log != [] {
      LoggedUsesAreUses(Apply(first, log[0]).value, log[1..], now, ref);
      LoggedUsesSplit(log, ref);
    }
  }

  lemma {:induction false} LoggedUsesSplit(log: seq<Operation>, ref: string)
    requires log != []
    ensures LoggedUses(log, ref) == (if log[0].Consume? && log[0].ref == ref then 1 else 0) + LoggedUses(log[1..], ref)
    decreases |log|
  {
    if |log| > 1 {
      LoggedUsesSplit(log[..|log| - 1], ref);
      assert log[..|log| - 1][1..] == log[1..][..|log[1..]| - 1];
    }
  }

  /**
    Over any interleaving of any number of processes, at most one caller is ever told that its use of `ref` succeeded.
  */
  lemma OneCallerIsToldYes(first: Records, events: seq<Event>, ref: string)
    ensures ToldUses(Run(Initial(first), events).told, ref) <= 1
    ensures LoggedUses(Run(Initial(first), events).log, ref) <= 1
  {
    var s := Run(Initial(first), events);
    RunKeepsInvariant(first, Initial(first), events);
    RunStaysHonest(first, Initial(first), events, ref);
    LoggedUsesAreUses(first, s.log, s.content, ref);
    ApprovalLaws.UsedAtMostOnce(first, s.log, ref);
  }

  // ----- every call is one step -------------------------------------------------------------------------------------

  /** A call taken as a single step: its operation, its answer, and whether the file was replaced. */
  datatype Call = Call(op: Operation, answer: Answer, landed: bool)

  /** The call whose outcome the event settles: it finds the lock held, cannot read, or comes to replace the file. */
  function Settled(s: System, e: Event, next: Option<Records>): seq<Call> {
    var phase := PhaseOf(s, e.process);
    match e
    case Start(_, op) => if phase.Idle? && WellFormed(op) && !s.lock.Free? then [Call(op, Locked, false)] else []
    case Read(_, readable) => if phase.Holding? && !readable then [Call(phase.op, Unreadable, false)] else []
    case Replace(_, works, landed) =>
      if !phase.Loaded? then []
      else if next.None? then [Call(phase.op, Refused, false)]
      else [Call(phase.op, WriteAnswer(works), works || landed)]
    case Unlink(_, _) => []
    case Crash(_) => []
  }

  function CallsOf(s: System, events: seq<Event>): seq<Call>
    decreases |events|
  {
    if events == [] then [] else Settled(s, events[0], Decided(s, events[0])) + CallsOf(Step(s, events[0]), events[1..])
  }

  /** What a single-step call may answer on this content. */
  predicate Possible(m: Records, c: Call) {
    match c.answer
    case Succeeded => c.landed && Apply(m, c.op).Some?
    case Refused => !c.landed && Apply(m, c.op).None?
    case WriteFailed => Apply(m, c.op).Some?
    case _ => !c.landed
  }

  function Performed(m: Records, c: Call): Records {
    if c.landed then Apply(m, c.op).GetOr(m) else m
  }

  /** The calls, one after the other as single steps, lead from `first` to `last`. */
  predicate StepByStep(first: Records, calls: seq<Call>, last: Records)
    decreases |calls|
  {
    if calls == [] then first == last
    else Possible(first, calls[0]) && StepByStep(Performed(first, calls[0]), calls[1..], last)
  }

  function Answers(calls: seq<Call>): multiset<(Operation, Answer)> {
    if calls == [] then multiset{} else multiset{(calls[0].op, calls[0].answer)} + Answers(calls[1..])
  }

  /** The answer that the holder of the lock has still to give. */
  function InFlight(s: System): multiset<(Operation, Answer)> {
    if s.lock.CreatedBy? && PhaseOf(s, s.lock.process).Leaving?
    then multiset{(PhaseOf(s, s.lock.process).op, PhaseOf(s, s.lock.process).answer)} else multiset{}
  }

  lemma SettledIsOneStep(first: Records, s: System, e: Event)
    requires Invariant(first, s)
    ensures var calls := Settled(s, e, Decided(s, e));
            if calls == [] then Step(s, e).content == s.content
            else |calls| == 1 && Possible(s.content, calls[0]) && Step(s, e).content == Performed(s.content, calls[0])
  {
  }

  lemma OneMoreAnswer(told: seq<(Operation, Answer)>, a: (Operation, Answer))
    ensures multiset(told + [a]) == multiset(told) + multiset{a}
  {
  }

  /** The process inside the section is the one whose answer is in flight. */
  lemma InFlightInside(s: System, p: nat)
    requires s.lock == CreatedBy(p)
    ensures InFlight(s) ==
      if PhaseOf(s, p).Leaving? then multiset{(PhaseOf(s, p).op, PhaseOf(s, p).answer)} else multiset{}
  {
  }

  lemma EnteredAnswers(s: System, p: nat, phase: Phase, content: Records, log: seq<Operation>)
    requires s.lock == CreatedBy(p)
    ensures InFlight(Enter(s, p, phase).(content := content, log := log))
         == if phase.Leaving? then multiset{(phase.op, phase.answer)} else multiset{}
  {
    InFlightInside(Enter(s, p, phase).(content := content, log := log), p);
  }

  lemma StartIsAnswered(s: System, p: nat, op: Operation)
    requires PhaseOf(s, p).Idle?
    ensures s.lock.Free? ==> InFlight(Enter(s, p, Holding(op)).(lock := CreatedBy(p))) == multiset{}
    ensures InFlight(s.(told := s.told + [(op, Locked)])) == InFlight(s)
  {
  }

  lemma UnlinkIsAnswered(s: System, p: nat, lock: Lock, told: seq<(Operation, Answer)>)
    requires s.lock == CreatedBy(p) && (lock == s.lock || lock.Free?)
    ensures InFlight(Enter(s, p, Idle).(lock := lock, told := told)) == multiset{}
  {
  }

  lemma CrashIsAnswered(s: System, p: nat)
    ensures InFlight(Enter(s, p, Dead)) <= InFlight(s)
  {
  }

  /** Answers given and in flight are accounted for by the calls settled. */
  predicate Accounted(s: System, t: System, calls: seq<Call>) {
    multiset(t.told) + InFlight(t) <= multiset(s.told) + InFlight(s) + Answers(calls)
  }

  lemma SettledIsAnswered(s: System, e: Event, next: Option<Records>)
    requires Exclusive(s)
    ensures Accounted(s, StepWith(s, e, next), Settled(s, e, next))
  {
    var phase := PhaseOf(s, e.process);
    var t := StepWith(s, e, next);
    if t != s {
      match e
      case Start(p, op) => StartIsAnswered(s, p, op); OneMoreAnswer(s.told, (op, Locked));
      case Read(p, _) => EnteredAnswers(s, p, PhaseOf(t, p), s.content, s.log);
      case Replace(p, _, _) => EnteredAnswers(s, p, PhaseOf(t, p), t.content, t.log);
      case Unlink(p, _) =>
        InFlightInside(s, p);
        UnlinkIsAnswered(s, p, t.lock, t.told);
        OneMoreAnswer(s.told, (phase.op, phase.answer));
      case Crash(p) => CrashIsAnswered(s, p);
    }
  }

  lemma Chained(m: Records, calls: seq<Call>, next: Records, rest: seq<Call>, last: Records)
    requires if calls == [] then next == m
             else |calls| == 1 && Possible(m, calls[0]) && next == Performed(m, calls[0])
    requires StepByStep(next, rest, last)
    ensures StepByStep(m, calls + rest, last) && Answers(calls + rest) == Answers(calls) + Answers(rest)
  {
    assert (calls + rest)[|calls|..] == rest;
  }

  /** `t` is what the first event leaves, `u` what all of them leave. */
  lemma AccountedBoth(s: System, t: System, u: System, calls: seq<Call>, rest: seq<Call>)
    requires Accounted(s, t, calls) && multiset(u.told) <= multiset(t.told) + InFlight(t) + Answers(rest)
    requires Answers(calls + rest) == Answers(calls) + Answers(rest)
    ensures multiset(u.told) <= multiset(s.told) + InFlight(s) + Answers(calls + rest)
  {
  }

  lemma {:induction false} CallsFromHere(first: Records, s: System, events: seq<Event>)
    requires Invariant(first, s)
    ensures StepByStep(s.content, CallsOf(s, events), Run(s, events).content)
    ensures multiset(Run(s, events).told) <= multiset(s.told) + InFlight(s) + Answers(CallsOf(s, events))
    decreases |events|
  {
    if events != [] {
      var e := events[0];
      var t := Step(s, e);
      var calls, rest := Settled(s, e, Decided(s, e)), CallsOf(t, events[1..]);
      StepKeepsInvariant(first, s, e);
      SettledIsOneStep(first, s, e);
      SettledIsAnswered(s, e, Decided(s, e));
      CallsFromHere(first, t, events[1..]);
      Chained(s.content, calls, t.content, rest, Run(s, events).content);
      AccountedBoth(s, t, Run(s, events), calls, rest);
    }
  }

  /**
    The four steps of a call amount to one. Any interleaving, with crashes and failing calls anywhere, leaves the file
    that its calls leave one after the other as single steps, and every answer that was given is the answer of one of
    them.
  */
  lemma CallsAreSingleSteps(first: Records, events: seq<Event>)
    ensures var s := Run(Initial(first), events);
            var calls := CallsOf(Initial(first), events);
            StepByStep(first, calls, s.content) && multiset(s.told) <= Answers(calls)
  {
    CallsFromHere(first, Initial(first), events);
  }

  // ----- a holder that died -----------------------------------------------------------------------------------------

  /** The lock file belongs to a process that will never unlink it. */
  predicate Orphaned(s: System) {
    s.lock.CreatedBy? && !InSection(PhaseOf(s, s.lock.process))
  }

  /** The file and the log as they were, and only "locked" answers since. */
  predicate OnlyLockedSince(s: System, t: System) {
    && t.content == s.content && t.log == s.log && s.told <= t.told
    && (forall i :: |s.told| <= i < |t.told| ==> t.told[i].1 == Locked)
  }

  lemma OnlyLockedTransitive(s: System, u: System, t: System)
    requires OnlyLockedSince(s, u) && OnlyLockedSince(u, t)
    ensures OnlyLockedSince(s, t)
  {
    assert forall i :: |s.told| <= i < |u.told| ==> t.told[i] == u.told[i];
  }

  lemma OrphanedStep(s: System, e: Event, next: Option<Records>)
    requires Exclusive(s) && Orphaned(s)
    ensures Orphaned(StepWith(s, e, next)) && OnlyLockedSince(s, StepWith(s, e, next))
  {
  }

  lemma {:induction false} OrphanedLockOnlyRefuses(first: Records, s: System, events: seq<Event>)
    requires Invariant(first, s) && Orphaned(s)
    ensures OnlyLockedSince(s, Run(s, events))
    decreases |events|
  {
    if events != [] {
      var u := Step(s, events[0]);
      StepKeepsInvariant(first, s, events[0]);
      OrphanedStep(s, events[0], Decided(s, events[0]));
      OrphanedLockOnlyRefuses(first, u, events[1..]);
      OnlyLockedTransitive(s, u, Run(s, events));
    }
  }

  /**
    A process that dies with the lock leaves the file as it was: every later call of anyone is refused, nothing
    changes.
  */
  lemma DeadHolderFreezesFile(first: Records, before: seq<Event>, p: nat, after: seq<Event>)
    requires InSection(PhaseOf(Run(Initial(first), before), p))
    ensures var s := Run(Initial(first), before);
            var t := Run(Step(s, Crash(p)), after);
            t.content == s.content && t.log == s.log
            && forall i :: |s.told| <= i < |t.told| ==> t.told[i].1 == Locked
  {
    var s := Run(Initial(first), before);
    RunKeepsInvariant(first, Initial(first), before);
    StepKeepsInvariant(first, s, Crash(p));
    OrphanedLockOnlyRefuses(first, Step(s, Crash(p)), after);
  }

  // ----- a call by itself -------------------------------------------------------------------------------------------

  /** The answer of a call that nothing disturbs. */
  function AnswerAlone(m: Records, op: Operation, readable: bool, works: bool): Answer {
    if !readable then Unreadable else if Apply(m, op).None? then Refused else if works then Succeeded else WriteFailed
  }

  function CallSteps(p: nat, op: Operation, readable: bool, works: bool, unlinks: bool): seq<Event> {
    [Start(p, op), Read(p, readable)] + (if readable then [Replace(p, works, false)] else []) + [Unlink(p, unlinks)]
  }

  lemma RunFirst(s: System, e: Event, more: seq<Event>)
    ensures Run(s, [e] + more) == Run(Step(s, e), more)
  {
    assert ([e] + more)[1..] == more;
  }

  lemma StartsAlone(s: System, p: nat, op: Operation)
    requires s.lock.Free? && PhaseOf(s, p).Idle? && WellFormed(op)
    ensures Step(s, Start(p, op)) == Enter(s, p, Holding(op)).(lock := CreatedBy(p))
  {
  }

  lemma ReadsAlone(s: System, p: nat, op: Operation, readable: bool)
    requires PhaseOf(s, p) == Holding(op)
    ensures Step(s, Read(p, readable))
         == Enter(s, p, if readable then Loaded(op, s.content) else Leaving(op, Unreadable))
  {
  }

  lemma ReplacesAlone(s: System, p: nat, op: Operation, works: bool)
    requires PhaseOf(s, p) == Loaded(op, s.content)
    ensures var t := Step(s, Replace(p, works, false));
            && PhaseOf(t, p) == Leaving(op, AnswerAlone(s.content, op, true, works))
            && t.content == (if works then Apply(s.content, op).GetOr(s.content) else s.content)
            && t.lock == s.lock && t.told == s.told
  {
  }

  lemma UnlinksAlone(s: System, p: nat, op: Operation, answer: Answer, works: bool)
    requires PhaseOf(s, p) == Leaving(op, answer)
    ensures var t := Step(s, Unlink(p, works));
            && PhaseOf(t, p).Idle? && t.content == s.content && t.told == s.told + [(op, answer)]
            && t.lock == if works then Free else s.lock
  {
  }

  /**
    On a free lock a call that nothing disturbs does what the single operation does and is told so: the file holds the
    accepted result when the write worked, else what it held; and the lock is free again unless its file could not be
    removed.
  */
  lemma CallAlone(s: System, p: nat, op: Operation, readable: bool, works: bool, unlinks: bool)
    requires s.lock.Free? && PhaseOf(s, p).Idle? && WellFormed(op)
    ensures var t := Run(s, CallSteps(p, op, readable, works, unlinks));
            && t.content == (if readable && works then Apply(s.content, op).GetOr(s.content) else s.content)
            && t.told == s.told + [(op, AnswerAlone(s.content, op, readable, works))]
            && PhaseOf(t, p).Idle? && t.lock == if unlinks then Free else CreatedBy(p)
  {
    var a := Step(s, Start(p, op));
    StartsAlone(s, p, op);
    var b := Step(a, Read(p, readable));
    ReadsAlone(a, p, op, readable);
    var last := [Unlink(p, unlinks)];
    var rest := (if readable then [Replace(p, works, false)] else []) + last;
    assert CallSteps(p, op, readable, works, unlinks) == [Start(p, op)] + ([Read(p, readable)] + rest);
    RunFirst(s, Start(p, op), [Read(p, readable)] + rest);
    RunFirst(a, Read(p, readable), rest);
    var c := b;
    if readable {
      ReplacesAlone(b, p, op, works);
      c := Step(b, Replace(p, works, false));
      RunFirst(b, Replace(p, works, false), last);
    } else {
      assert rest == last;
    }
    UnlinksAlone(c, p, op, AnswerAlone(s.content, op, readable, works), unlinks);
    assert last == last + [];
    RunFirst(c, Unlink(p, unlinks), []);
  }

  /** While another process holds the lock a call is told "locked" at once, and nothing else happens. */
  lemma LockedOut(s: System, p: nat, op: Operation)
    requires !s.lock.Free? && PhaseOf(s, p).Idle? && WellFormed(op)
    ensures Step(s, Start(p, op)) == s.(told := s.told + [(op, Locked)])
  {
  }
}
