/**
  The same calls one after the other: each is one guarded write, and its last look comes right before its intent line.
*/
module SequentialWrites {
  import opened Wrappers
  import opened WriteLog
  import opened OverlappingWrites

  /** Each call's last look came right before its intent line, and the sends are in the order of these. */
  ghost predicate Orderly(s: Shared) {
    && |s.origins| == |s.log|
    && (forall i :: 0 <= i < |s.sends| ==>
          0 < s.sends[i].at <= |s.log| && s.origins[s.sends[i].at - 1].look == s.sends[i].at - 1)
    && (forall i, j :: 0 <= i < j < |s.sends| ==> s.sends[i].at < s.sends[j].at)
  }

  lemma OrderlyLook(s: Shared, p: nat, q: nat)
    requires Orderly(s) && p < q < |s.sends|
    ensures 0 < s.sends[p].at < s.sends[q].at && LookOfSend(s, s.sends[q]) == s.sends[q].at - 1
  {
  }

  /** What a call leaves that ran alone: what the guarded write leaves. */
  ghost predicate RanAlone(s: Shared, t: Shared, p: nat, co: string, step: WriteStep, shown: bool, a: Attempt) {
    && State(t.log, t.sends) == Guarded(State(s.log, s.sends), co, step, shown, a)
    && PhaseOf(t, p) == if step.Ids? && ToldBy(a) == Told.Told(Verified) then Settled(co, false) else Idle
  }

  lemma PutStaysOrderly(s: Shared, p: nat, line: Line, o: Origin, how: Append, phase: Phase)
    requires Orderly(s)
    ensures Orderly(Put(s, p, line, o, how, phase))
  {
  }

  lemma IntendsAlone(s: Shared, p: nat, co: string, step: WriteStep, o: Origin, how: Append) returns (u: Shared)
    requires PhaseOf(s, p) == Looked(co, step, o) && Orderly(s) && o.look == |s.log|
    ensures u == Run(s, [Intends(p, how)]) && Orderly(u) && u.sends == s.sends
    ensures u.log == Appended(s.log, Entry(co, step, Started), how)
    ensures PhaseOf(u, p) == if how.Written? then Intending(co, step, o, |s.log| + 1) else Idle
    ensures how.Written? ==> u.origins == s.origins + [o] && |u.log| == |s.log| + 1
    ensures forall i :: 0 <= i < |u.sends| ==> u.sends[i].at <= |s.log|
  {
    RunOne(s, Intends(p, how));
    u := Step(s, Intends(p, how));
    PutStaysOrderly(s, p, Entry(co, step, Started), o, how, PhaseOf(u, p));
  }

  lemma SendsAlone(s: Shared, p: nat, co: string, step: WriteStep, o: Origin) returns (u: Shared)
    requires Orderly(s) && |s.log| > 0 && PhaseOf(s, p) == Intending(co, step, o, |s.log|)
    requires s.origins[|s.log| - 1] == o && o.look == |s.log| - 1
    requires forall i :: 0 <= i < |s.sends| ==> s.sends[i].at < |s.log|
    ensures u == Run(s, [Sends(p)]) && Orderly(u) && u.log == s.log
    ensures u.sends == s.sends + [Send(co, step, |s.log|, o.shown)] && PhaseOf(u, p) == Awaiting(co, step, o, |s.log|)
  {
    RunOne(s, Sends(p));
    u := Step(s, Sends(p));
  }

  lemma ConcludesAlone(s: Shared, p: nat, co: string, step: WriteStep, o: Origin, at: nat, reply: Reply, how: Append)
    returns (u: Shared)
    requires Orderly(s) && PhaseOf(s, p) == Awaiting(co, step, o, at)
    ensures u == Run(s, [Concludes(p, reply, how)]) && Orderly(u) && u.sends == s.sends
    ensures u.log == Appended(s.log, Entry(co, step, ResultOf(reply)), how)
    ensures PhaseOf(u, p) == AfterResult(co, step, ResultOf(reply), how)
  {
    RunOne(s, Concludes(p, reply, how));
    u := Step(s, Concludes(p, reply, how));
    PutStaysOrderly(s, p, Entry(co, step, ResultOf(reply)), o.(reply := Some(reply)), how,
                    AfterResult(co, step, ResultOf(reply), how));
  }

  /** Nothing changed but the process, which is at rest. */
  predicate AtRest(s: Shared, t: Shared, p: nat) {
    t.log == s.log && t.sends == s.sends && t.origins == s.origins && PhaseOf(t, p).Idle?
  }

  lemma StopsAlone(s: Shared, p: nat)
    ensures AtRest(s, Run(s, [Stops(p)]), p)
  {
    RunOne(s, Stops(p));
  }

  lemma NothingWhileIdle(s: Shared, p: nat, e: Event)
    requires PhaseOf(s, p).Idle? && e.process == p && (e.Intends? || e.Sends? || e.Concludes? || e.Stops?)
    ensures AtRest(s, Run(s, [e]), p)
  {
    RunOne(s, e);
  }

  /** What follows the intent line. */
  function Rest(p: nat, a: Attempt): seq<Event> {
    if a.stop.BeforeSend? then [Stops(p)]
    else [Sends(p)] + [if a.stop.AfterSend? then Stops(p) else Concludes(p, a.reply, a.outcome)]
  }

  /** One call after its look, with no other process in between. */
  function Alone(p: nat, a: Attempt): seq<Event> { [Intends(p, a.intent)] + Rest(p, a) }

  lemma RestWhileIdle(s: Shared, p: nat, a: Attempt)
    requires PhaseOf(s, p).Idle?
    ensures AtRest(s, Run(s, Rest(p, a)), p)
  {
    if a.stop.BeforeSend? {
      StopsAlone(s, p);
    } else {
      var last := if a.stop.AfterSend? then Stops(p) else Concludes(p, a.reply, a.outcome);
      NothingWhileIdle(s, p, Sends(p));
      NothingWhileIdle(Run(s, [Sends(p)]), p, last);
      RunBoth(s, [Sends(p)], [last]);
    }
  }

  lemma SentThenStopped(s: Shared, p: nat, co: string, step: WriteStep, o: Origin) returns (t: Shared)
    requires Orderly(s) && |s.log| > 0 && PhaseOf(s, p) == Intending(co, step, o, |s.log|)
    requires s.origins[|s.log| - 1] == o && o.look == |s.log| - 1
    requires forall i :: 0 <= i < |s.sends| ==> s.sends[i].at < |s.log|
    ensures t == Run(s, [Sends(p)] + [Stops(p)]) && Orderly(t) && PhaseOf(t, p).Idle?
    ensures t.log == s.log && t.sends == s.sends + [Send(co, step, |s.log|, o.shown)]
  {
    var v := SendsAlone(s, p, co, step, o);
    StopsAlone(v, p);
    RunBoth(s, [Sends(p)], [Stops(p)]);
    t := Run(v, [Stops(p)]);
  }

  lemma SentThenConcluded(s: Shared, p: nat, co: string, step: WriteStep, o: Origin, reply: Reply, how: Append)
    returns (t: Shared)
    requires Orderly(s) && |s.log| > 0 && PhaseOf(s, p) == Intending(co, step, o, |s.log|)
    requires s.origins[|s.log| - 1] == o && o.look == |s.log| - 1
    requires forall i :: 0 <= i < |s.sends| ==> s.sends[i].at < |s.log|
    ensures t == Run(s, [Sends(p)] + [Concludes(p, reply, how)]) && Orderly(t)
    ensures PhaseOf(t, p) == AfterResult(co, step, ResultOf(reply), how)
    ensures t.log == Appended(s.log, Entry(co, step, ResultOf(reply)), how)
    ensures t.sends == s.sends + [Send(co, step, |s.log|, o.shown)]
  {
    var v := SendsAlone(s, p, co, step, o);
    t := ConcludesAlone(v, p, co, step, o, |s.log|, reply, how);
    RunBoth(s, [Sends(p)], [Concludes(p, reply, how)]);
  }

  lemma SentIsGuarded(s: Shared, p: nat, co: string, step: WriteStep, o: Origin, a: Attempt)
    requires PhaseOf(s, p) == Looked(co, step, o) && Orderly(s) && o.look == |s.log|
    requires a.intent.Written? && !a.stop.BeforeSend?
    ensures RanAlone(s, Run(s, Alone(p, a)), p, co, step, o.shown, a) && Orderly(Run(s, Alone(p, a)))
  {
    var u := IntendsAlone(s, p, co, step, o, a.intent);
    RunBoth(s, [Intends(p, a.intent)], Rest(p, a));
    if a.stop.AfterSend? {
      var t := SentThenStopped(u, p, co, step, o);
    } else {
      var t := SentThenConcluded(u, p, co, step, o, a.reply, a.outcome);
    }
  }

  lemma NeverSentIsGuarded(s: Shared, u: Shared, t: Shared, p: nat, co: string, step: WriteStep, shown: bool,
      a: Attempt)
    requires !a.intent.Written? || a.stop.BeforeSend?
    requires u.log == Appended(s.log, Entry(co, step, Started), a.intent) && u.sends == s.sends
    requires AtRest(u, t, p) && Orderly(u)
    ensures RanAlone(s, t, p, co, step, shown, a) && Orderly(t)
  {
  }

  lemma UnsentIsGuarded(s: Shared, p: nat, co: string, step: WriteStep, o: Origin, a: Attempt)
    requires PhaseOf(s, p) == Looked(co, step, o) && Orderly(s) && o.look == |s.log|
    requires !a.intent.Written? || a.stop.BeforeSend?
    ensures RanAlone(s, Run(s, Alone(p, a)), p, co, step, o.shown, a) && Orderly(Run(s, Alone(p, a)))
  {
    var u := IntendsAlone(s, p, co, step, o, a.intent);
    RunBoth(s, [Intends(p, a.intent)], Rest(p, a));
    if a.stop.BeforeSend? { StopsAlone(u, p); } else { RestWhileIdle(u, p, a); }
    NeverSentIsGuarded(s, u, Run(u, Rest(p, a)), p, co, step, o.shown, a);
  }

  lemma AloneIsGuarded(s: Shared, p: nat, co: string, step: WriteStep, o: Origin, a: Attempt)
    requires PhaseOf(s, p) == Looked(co, step, o) && Orderly(s) && o.look == |s.log|
    ensures RanAlone(s, Run(s, Alone(p, a)), p, co, step, o.shown, a) && Orderly(Run(s, Alone(p, a)))
  {
    if a.intent.Written? && !a.stop.BeforeSend? {
      SentIsGuarded(s, p, co, step, o, a);
    } else {
      UnsentIsGuarded(s, p, co, step, o, a);
    }
  }

  lemma AloneIdle(s: Shared, p: nat, a: Attempt)
    requires PhaseOf(s, p).Idle?
    ensures AtRest(s, Run(s, Alone(p, a)), p)
  {
    NothingWhileIdle(s, p, Intends(p, a.intent));
    RestWhileIdle(Run(s, [Intends(p, a.intent)]), p, a);
    RunBoth(s, [Intends(p, a.intent)], Rest(p, a));
  }

  /** A look and the write after it, or nothing where the gate is shut. */
  function LookAndWrite(p: nat, co: string, step: WriteStep, ok: bool, readable: bool, a: Attempt): seq<Event> {
    [Looks(p, co, step, ok, readable)] + Alone(p, a)
  }

  lemma LooksAlone(s: Shared, p: nat, co: string, step: WriteStep, ok: bool, readable: bool) returns (u: Shared)
    requires Orderly(s) && MayLook(PhaseOf(s, p), co, step)
    ensures u == Run(s, [Looks(p, co, step, ok, readable)]) && Orderly(u) && u.log == s.log && u.sends == s.sends
    ensures PhaseOf(u, p) ==
      if ok && GateOpen(s.log, co, step, readable) then Looked(co, step, LookOf(s, PhaseOf(s, p), step, readable))
      else Idle
  {
    RunOne(s, Looks(p, co, step, ok, readable));
    u := Step(s, Looks(p, co, step, ok, readable));
  }

  lemma LookAndWriteAlone(s: Shared, p: nat, co: string, step: WriteStep, ok: bool, readable: bool, a: Attempt)
    returns (t: Shared)
    requires Orderly(s) && MayLook(PhaseOf(s, p), co, step)
    ensures t == Run(s, LookAndWrite(p, co, step, ok, readable, a)) && Orderly(t)
    ensures if ok && GateOpen(s.log, co, step, readable)
            then RanAlone(s, t, p, co, step, step.Stage? && PhaseOf(s, p).shown, a)
            else t.log == s.log && t.sends == s.sends && PhaseOf(t, p).Idle?
  {
    var u := LooksAlone(s, p, co, step, ok, readable);
    RunBoth(s, [Looks(p, co, step, ok, readable)], Alone(p, a));
    t := Run(u, Alone(p, a));
    if ok && GateOpen(s.log, co, step, readable) {
      AloneIsGuarded(u, p, co, step, LookOf(s, PhaseOf(s, p), step, readable), a);
    } else {
      AloneIdle(u, p, a);
    }
  }
}
