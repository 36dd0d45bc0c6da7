/**
  The append-only log around a Salesforce write: an intent line, one write, a read-back, a result line. A process may
  stop at any point, and a failing append may have reached the file whole, in part or not at all.
*/
module WriteLog {
  import opened Wrappers

  datatype WriteStep = Uuid | Ids | Stage

  datatype LineResult = Started | Verified | Rejected | Uncertain | Cleared

  /** `Torn` is a line that does not parse. */
  datatype Line = Torn | Entry(co: string, step: WriteStep, result: LineResult)

  /** One write sent to Salesforce, when the log had `at` lines; `shown` says the row already had the ids. */
  datatype Send = Send(co: string, step: WriteStep, at: nat, shown: bool)

  datatype State = State(log: seq<Line>, sends: seq<Send>)

  datatype Append = Written | FailedWhole | FailedTorn | FailedLost

  function Appended(log: seq<Line>, line: Line, how: Append): seq<Line> {
    match how
    case FailedTorn => log + [Torn]
    case FailedLost => log
    case _ => log + [line]
  }

  /** The newest result of one step of one CO, None also after an owner's review. */
  function Newest(log: seq<Line>, co: string, step: WriteStep): Option<LineResult> {
    if log == [] then None else
    var last := log[|log| - 1];
    if last.Entry? && last.co == co && last.step == step then (if last.result.Cleared? then None else Some(last.result))
    else Newest(log[..|log| - 1], co, step)
  }

  /** What a reader of the file gets: an unreadable file or a line that does not parse counts as an uncertain write. */
  function Last(log: seq<Line>, co: string, step: WriteStep, readable: bool): Option<LineResult> {
    if !readable || Torn in log then Some(Uncertain) else Newest(log, co, step)
  }

  /** What the Salesforce command and the read-back after it answered. */
  datatype Reply = Accepted(verified: bool) | Refused | NoReply

  function ResultOf(reply: Reply): LineResult {
    match reply
    case Refused => Rejected
    case NoReply => Uncertain
    case Accepted(verified) => if verified then Verified else Uncertain
  }

  /** Where the process stopped inside one guarded write. */
  datatype Stop = Never | BeforeSend | AfterSend

  datatype Attempt = Attempt(intent: Append, stop: Stop, reply: Reply, outcome: Append)

  datatype Told = Stopped | RecordFailed | Told(result: LineResult)

  function Intended(s: State, co: string, step: WriteStep, a: Attempt): State {
    s.(log := Appended(s.log, Entry(co, step, Started), a.intent))
  }

  /** The log and the sends after one guarded write whose gate passed. */
  function Guarded(s: State, co: string, step: WriteStep, shown: bool, a: Attempt): State {
    var intended := Intended(s, co, step, a);
    if !a.intent.Written? || a.stop.BeforeSend? then intended else
    var sent := intended.(sends := s.sends + [Send(co, step, |intended.log|, shown)]);
    if a.stop.AfterSend? then sent else sent.(log := Appended(sent.log, Entry(co, step, ResultOf(a.reply)), a.outcome))
  }

  function ToldBy(a: Attempt): Told {
    if !a.intent.Written? then RecordFailed
    else if !a.stop.Never? then Stopped
    else if !a.outcome.Written? then RecordFailed
    else Told.Told(ResultOf(a.reply))
  }

  class Ledger {
    var log: seq<Line>
    var sends: seq<Send>

    function View(): State
      reads this
    {
      State(log, sends)
    }

    constructor ()
      ensures View() == State([], [])
    {
      log, sends := [], [];
    }

    method Record(line: Line, how: Append) returns (ok: bool)
      modifies this`log
      ensures log == Appended(old(log), line, how) && (ok <==> how.Written?)
    {
      match how
      case Written => log := log + [line]; ok := true;
      case FailedWhole => log := log + [line]; ok := false;
      case FailedTorn => log := log + [Torn]; ok := false;
      case FailedLost => ok := false;
    }

    /**
      Nothing is sent without an intent line on file, and at most one write is sent. A call that ran to its end is
      told, and leaves on file, "verified" exactly for an accepted write that was read back, "rejected" exactly for a
      refused one, and "uncertain" for the rest.
    */
    method WriteOnce(co: string, step: WriteStep, shown: bool, a: Attempt) returns (told: Told)
      modifies this
      ensures View() == Guarded(old(View()), co, step, shown, a) && told == ToldBy(a)
      ensures |sends| <= |old(sends)| + 1
      ensures sends != old(sends) ==> Entry(co, step, Started) == log[|old(log)|] && |old(log)| < |log|
      ensures var complete := a.intent.Written? && a.stop.Never? && a.outcome.Written?;
              && (told == Told.Told(Verified) <==> complete && a.reply == Accepted(true))
              && (told == Told.Told(Rejected) <==> complete && a.reply == Reply.Refused)
              && (told == Told.Told(Uncertain) <==> complete && (a.reply == NoReply || a.reply == Accepted(false)))
              && (complete ==> log == old(log) + [Entry(co, step, Started), Entry(co, step, told.result)])
    {
      var ok := Record(Entry(co, step, Started), a.intent);
      if !ok { return RecordFailed; }
      if a.stop.BeforeSend? { return Stopped; }
      sends := sends + [Send(co, step, |log|, shown)];
      if a.stop.AfterSend? { return Stopped; }
      var result := Uncertain;
      match a.reply {
        case Refused => result := Rejected;
        case NoReply =>
        case Accepted(verified) => if verified { result := Verified; }
      }
      ok := Record(Entry(co, step, result), a.outcome);
      if !ok { return RecordFailed; }
      return Told.Told(result);
    }
  }

  // ----- reading a longer log ---------------------------------------------------------------------------------------

  lemma NewestOfAppend(log: seq<Line>, line: Line, co: string, step: WriteStep)
    ensures Newest(log + [line], co, step) ==
      if line.Entry? && line.co == co && line.step == step then
        (if line.result.Cleared? then None else Some(line.result))
      else Newest(log, co, step)
  {
    assert (log + [line])[..|log|] == log;
  }

  predicate IsOf(line: Line, co: string, step: WriteStep) { line.Entry? && line.co == co && line.step == step }

  /** Line `k` is the last of this CO and step. */
  predicate LastOf(log: seq<Line>, co: string, step: WriteStep, k: nat) {
    k < |log| && IsOf(log[k], co, step) && forall j :: k < j < |log| ==> !IsOf(log[j], co, step)
  }

  ghost predicate LastSays(log: seq<Line>, co: string, step: WriteStep, result: LineResult) {
    exists k: nat :: LastOf(log, co, step, k) && log[k].result == result
  }

  /** What counts is the last line of a CO and step, unless that is a review. */
  lemma {:induction false} NewestExactly(log: seq<Line>, co: string, step: WriteStep)
    ensures match Newest(log, co, step)
            case Some(result) => !result.Cleared? && LastSays(log, co, step, result)
            case None =>
              (forall k :: 0 <= k < |log| ==> !IsOf(log[k], co, step))
              || LastSays(log, co, step, Cleared)
  {
    if log != [] {
      var before, last := log[..|log| - 1], |log| - 1;
      if IsOf(log[last], co, step) {
        assert LastOf(log, co, step, last);
      } else {
        NewestExactly(before, co, step);
        forall k: nat | LastOf(before, co, step, k) ensures LastOf(log, co, step, k) && log[k] == before[k] {}
        forall k | 0 <= k < last ensures log[k] == before[k] {}
      }
    }
  }

  lemma OneLast(log: seq<Line>, co: string, step: WriteStep, j: nat, k: nat)
    requires LastOf(log, co, step, j) && LastOf(log, co, step, k)
    ensures j == k
  {
  }

  /** A result on file stops counting only by an owner's review of the same CO after it. */
  lemma {:induction false} ForgottenOnlyByReview(log: seq<Line>, co: string, step: WriteStep, i: nat)
    requires i < |log| && log[i].Entry? && log[i].co == co && log[i].step == step && !log[i].result.Cleared?
    requires Newest(log, co, step).None?
    ensures exists k :: i < k < |log| && log[k] == Entry(co, step, Cleared)
  {
    var before, last := log[..|log| - 1], log[|log| - 1];
    if !(last.Entry? && last.co == co && last.step == step) {
      ForgottenOnlyByReview(before, co, step, i);
      var k :| i < k < |before| && before[k] == Entry(co, step, Cleared);
      assert log[k] == before[k];
    } else {
      assert log[|log| - 1] == Entry(co, step, Cleared);
    }
  }
}
