/**
  The sliding-window rate limiter. Its queue holds only what is left of the window, yet with nondecreasing times it
  decides as if it counted the whole history. Times are microseconds.
*/
module RateLimiter {
  import opened Text

  const SECOND := 1_000_000

  datatype Policy = Policy(max: nat, window: int) {
    predicate Valid() { 1 <= max && 0 < window }
  }

  /** `[a-z0-9][a-z0-9._-]{0,127}` */
  predicate ActorShape(s: string) {
    1 <= |s| <= 128 && (IsLower(s[0]) || IsDigit(s[0]))
    && forall i :: 0 <= i < |s| ==> IsLower(s[i]) || IsDigit(s[i]) || s[i] == '.' || s[i] == '_' || s[i] == '-'
  }

  datatype Answer = Allowed | Wait(seconds: int) | InvalidActor

  /** The queue without the requests that left the window. */
  function Unexpired(queue: seq<int>, cutoff: int): seq<int> {
    if queue != [] && queue[0] <= cutoff then Unexpired(queue[1..], cutoff) else queue
  }

  function RetryAfter(wait: int): int {
    if wait < SECOND then 1 else wait / SECOND
  }

  /** The queue after one request, and the answer. */
  function Decide(p: Policy, queue: seq<int>, now: int): (seq<int>, Answer)
    requires p.Valid()
  {
    var left := Unexpired(queue, now - p.window);
    if |left| >= p.max then (left, Wait(RetryAfter(left[0] + p.window - now))) else (left + [now], Allowed)
  }

  class Limiter {
    const policy: Policy
    var requests: map<string, seq<int>>

    constructor (policy: Policy)
      requires policy.Valid()
      ensures this.policy == policy && requests == map[]
    {
      this.policy := policy;
      requests := map[];
    }

    function Queue(actor: string): seq<int>
      reads this
    {
      if actor in requests then requests[actor] else []
    }

    /** One request of one actor; no other actor's queue changes. */
    method Check(actor: string, now: int) returns (answer: Answer)
      requires policy.Valid()
      modifies this
      ensures !ActorShape(actor) ==> answer.InvalidActor? && requests == old(requests)
      ensures ActorShape(actor) ==>
        (Queue(actor), answer) == Decide(policy, old(Queue(actor)), now)
          && requests == old(requests)[actor := Queue(actor)]
    {
      if !ActorShape(actor) { return InvalidActor; }
      var cutoff := now - policy.window;
      var queue := Queue(actor);
      while queue != [] && queue[0] <= cutoff
        invariant Unexpired(queue, cutoff) == Unexpired(old(Queue(actor)), cutoff)
        decreases |queue|
      {
        queue := queue[1..];
      }
      if |queue| >= policy.max {
        var wait := queue[0] + policy.window - now;
        answer := Wait(if wait < SECOND then 1 else wait / SECOND);
      } else {
        queue := queue + [now];
        answer := Allowed;
      }
      requests := requests[actor := queue];
    }
  }

  // ----- the whole history ------------------------------------------------------------------------------------------

  /** One actor's queue, and the times at which a request was allowed: nothing is ever dropped from those. */
  datatype Past = Past(queue: seq<int>, history: seq<int>)

  function Requested(p: Policy, past: Past, now: int): Past
    requires p.Valid()
  {
    var (queue, answer) := Decide(p, past.queue, now);
    Past(queue, if answer.Allowed? then past.history + [now] else past.history)
  }

  function After(p: Policy, times: seq<int>): Past
    requires p.Valid()
  {
    if times == [] then Past([], []) else Requested(p, After(p, times[..|times| - 1]), times[|times| - 1])
  }

  predicate Allows(p: Policy, past: Past, now: int)
    requires p.Valid()
  {
    Decide(p, past.queue, now).1.Allowed?
  }

  /** How many of the times lie in the window (from, to]. */
  function CountIn(times: seq<int>, from: int, to: int): nat {
    if times == [] then 0
    else CountIn(times[..|times| - 1], from, to) + (if from < times[|times| - 1] <= to then 1 else 0)
  }

  predicate Ordered(times: seq<int>) { forall i, j :: 0 <= i < j < |times| ==> times[i] <= times[j] }

  predicate UpTo(times: seq<int>, t: int) { forall i :: 0 <= i < |times| ==> times[i] <= t }

  /** The queue is the history without its first `k` times, which have left the window. */
  predicate TailFrom(queue: seq<int>, history: seq<int>, k: nat, cutoff: int) {
    k <= |history| && queue == history[k..] && UpTo(history[..k], cutoff)
  }

  /** What an ordered run keeps, `now` being no earlier than its last request. */
  ghost predicate Faithful(past: Past, now: int, cutoff: int) {
    Ordered(past.history) && UpTo(past.history, now) && exists k: nat :: TailFrom(past.queue, past.history, k, cutoff)
  }

  lemma {:induction false} UnexpiredTail(queue: seq<int>, history: seq<int>, k: nat, cutoff: int) returns (n: nat)
    requires TailFrom(queue, history, k, cutoff)
    ensures TailFrom(Unexpired(queue, cutoff), history, n, cutoff)
    decreases |queue|
  {
    if queue != [] && queue[0] <= cutoff {
      assert queue[1..] == history[k + 1..] && history[..k + 1] == history[..k] + [queue[0]];
      n := UnexpiredTail(queue[1..], history, k + 1, cutoff);
    } else {
      n := k;
    }
  }

  lemma {:induction false} UnexpiredHead(queue: seq<int>, cutoff: int)
    ensures Unexpired(queue, cutoff) != [] ==> Unexpired(queue, cutoff)[0] > cutoff
    decreases |queue|
  {
    if queue != [] && queue[0] <= cutoff { UnexpiredHead(queue[1..], cutoff); }
  }

  lemma {:induction false} CountTail(times: seq<int>, k: nat, from: int, to: int)
    requires k <= |times| && (forall i :: 0 <= i < k ==> times[i] <= from)
      && (forall i :: k <= i < |times| ==> from < times[i] <= to)
    ensures CountIn(times, from, to) == |times| - k
    decreases |times|
  {
    if times != [] {
      CountTail(times[..|times| - 1], if k < |times| then k else |times| - 1, from, to);
    }
  }

  lemma LaterStaysFaithful(past: Past, now: int, cutoff: int, later: int, laterCutoff: int)
    requires Faithful(past, now, cutoff) && now <= later && cutoff <= laterCutoff
    ensures Faithful(past, later, laterCutoff)
  {
    var k: nat :| TailFrom(past.queue, past.history, k, cutoff);
    assert TailFrom(past.queue, past.history, k, laterCutoff);
  }

  lemma TakenTail(left: seq<int>, history: seq<int>, n: nat, now: int, cutoff: int)
    requires TailFrom(left, history, n, cutoff)
    ensures TailFrom(left + [now], history + [now], n, cutoff)
  {
    assert (history + [now])[n..] == history[n..] + [now] && (history + [now])[..n] == history[..n];
  }

  lemma RequestStaysFaithful(p: Policy, past: Past, now: int)
    requires p.Valid() && Faithful(past, now, now - p.window)
    ensures Faithful(Requested(p, past, now), now, now - p.window)
  {
    var cutoff := now - p.window;
    var k: nat :| TailFrom(past.queue, past.history, k, cutoff);
    var n := UnexpiredTail(past.queue, past.history, k, cutoff);
    TakenTail(Unexpired(past.queue, cutoff), past.history, n, now, cutoff);
  }

  lemma RequestThenLater(p: Policy, past: Past, now: int, later: int)
    requires p.Valid() && Faithful(past, now, now - p.window) && now <= later
    ensures Faithful(Requested(p, past, now), later, later - p.window)
  {
    RequestStaysFaithful(p, past, now);
    LaterStaysFaithful(Requested(p, past, now), now, now - p.window, later, later - p.window);
  }

  lemma {:induction false} OrderedRunsAreFaithful(p: Policy, times: seq<int>, now: int)
    requires p.Valid() && Ordered(times + [now])
    ensures Faithful(After(p, times), now, now - p.window)
    decreases |times|
  {
    if times != [] {
      var before, last := times[..|times| - 1], times[|times| - 1];
      OrderedPrefix(before, last, now, times);
      OrderedRunsAreFaithful(p, before, last);
      RequestThenLater(p, After(p, before), last, now);
    } else {
      assert TailFrom([], [], 0, now - p.window);
    }
  }

  lemma OrderedPrefix(before: seq<int>, last: int, now: int, times: seq<int>)
    requires times == before + [last] && Ordered(times + [now])
    ensures Ordered(before + [last]) && last <= now
  {
    var all := times + [now];
    assert all[|before|] == last && all[|times|] == now;
    assert forall i :: 0 <= i < |times| ==> all[i] == times[i];
  }

  lemma LeftIsTheWindow(past: Past, now: int, cutoff: int)
    requires Faithful(past, now, cutoff)
    ensures |Unexpired(past.queue, cutoff)| == CountIn(past.history, cutoff, now)
  {
    var history := past.history;
    var k: nat :| TailFrom(past.queue, history, k, cutoff);
    var n := UnexpiredTail(past.queue, history, k, cutoff);
    UnexpiredHead(past.queue, cutoff);
    var left := Unexpired(past.queue, cutoff);
    forall i | n <= i < |history| ensures cutoff < history[i] {
      assert left[0] == history[n] && history[n] <= history[i];
    }
    forall i | 0 <= i < n ensures history[i] <= cutoff { assert history[..n][i] == history[i]; }
    CountTail(history, n, cutoff, now);
  }

  lemma DecidesByWindow(p: Policy, past: Past, now: int)
    requires p.Valid() && |Unexpired(past.queue, now - p.window)| == CountIn(past.history, now - p.window, now)
    ensures Allows(p, past, now) <==> CountIn(past.history, now - p.window, now) < p.max
  {
  }

  /**
    With nondecreasing times a request is allowed exactly when fewer than the limit were allowed in the window that ends
    with it, counted over the whole history.
  */
  lemma DecidesByWholeHistory(p: Policy, times: seq<int>, now: int)
    requires p.Valid() && Ordered(times + [now])
    ensures Allows(p, After(p, times), now) <==> CountIn(After(p, times).history, now - p.window, now) < p.max
  {
    OrderedRunsAreFaithful(p, times, now);
    LeftIsTheWindow(After(p, times), now, now - p.window);
    DecidesByWindow(p, After(p, times), now);
  }

  lemma {:induction false} NarrowerCount(times: seq<int>, from: int, to: int, from2: int, to2: int)
    requires from2 <= from && forall i :: 0 <= i < |times| ==> times[i] <= to2
    ensures CountIn(times, from, to) <= CountIn(times, from2, to2)
  {
    if times != [] { NarrowerCount(times[..|times| - 1], from, to, from2, to2); }
  }

  lemma CountOfAppend(times: seq<int>, now: int, from: int, to: int)
    ensures CountIn(times + [now], from, to) == CountIn(times, from, to) + (if from < now <= to then 1 else 0)
  {
    assert (times + [now])[..|times|] == times;
  }

  lemma RequestKeepsWindow(p: Policy, past: Past, now: int, t: int)
    requires p.Valid() && UpTo(past.history, now) && CountIn(past.history, t - p.window, t) <= p.max
    requires Allows(p, past, now) <==> CountIn(past.history, now - p.window, now) < p.max
    ensures CountIn(Requested(p, past, now).history, t - p.window, t) <= p.max
  {
    CountOfAppend(past.history, now, t - p.window, t);
    if t >= now { NarrowerCount(past.history, t - p.window, t, now - p.window, now); }
  }

  /** The window that ends at `t` holds no more allowed requests than the limit. */
  predicate Fits(p: Policy, past: Past, t: int) { CountIn(past.history, t - p.window, t) <= p.max }

  lemma OrderedStepFits(p: Policy, before: seq<int>, now: int, t: int)
    requires p.Valid() && Ordered(before + [now]) && Fits(p, After(p, before), t)
    ensures Fits(p, Requested(p, After(p, before), now), t)
  {
    OrderedRunsAreFaithful(p, before, now);
    DecidesByWholeHistory(p, before, now);
    RequestKeepsWindow(p, After(p, before), now, t);
  }

  lemma {:induction false} OrderedAlwaysFits(p: Policy, times: seq<int>, t: int)
    requires p.Valid() && Ordered(times)
    ensures Fits(p, After(p, times), t)
  {
    if times != [] {
      var before, now := times[..|times| - 1], times[|times| - 1];
      assert before + [now] == times;
      OrderedAlwaysFits(p, before, t);
      OrderedStepFits(p, before, now, t);
    }
  }

  lemma AfterAppend(p: Policy, times: seq<int>, now: int)
    requires p.Valid()
    ensures After(p, times + [now]) == Requested(p, After(p, times), now)
  {
    assert (times + [now])[..|times|] == times;
  }

  // ----- times in any order -----------------------------------------------------------------------------------------

  /** Request `k` is decided as the whole history says. */
  predicate Agrees(p: Policy, times: seq<int>, k: nat)
    requires p.Valid() && k < |times|
  {
    var past, now := After(p, times[..k]), times[k];
    Allows(p, past, now) <==> CountIn(past.history, now - p.window, now) < p.max
  }

  lemma NothingExpires(queue: seq<int>, cutoff: int)
    requires queue != [] ==> cutoff < queue[0]
    ensures Unexpired(queue, cutoff) == queue
  {
  }

  /** Times within one window and no more than the limit are all allowed and all stay in the queue. */
  lemma {:induction false} AllTaken(p: Policy, times: seq<int>)
    requires p.Valid() && |times| <= p.max && Ordered(times)
    requires times != [] ==> times[|times| - 1] - p.window < times[0]
    ensures After(p, times) == Past(times, times)
  {
    if times != [] {
      var before := times[..|times| - 1];
      AllTaken(p, before);
      NothingExpires(before, times[|times| - 1] - p.window);
    }
  }

  lemma {:induction false} CountAtMost(times: seq<int>, from: int, to: int)
    ensures CountIn(times, from, to) <= |times|
  {
    if times != [] { CountAtMost(times[..|times| - 1], from, to); }
  }

  /**
    The first decreasing time: under this policy it is refused although a request less than the limit is in its
    window.
  */
  lemma FirstDescentDisagrees(times: seq<int>, k: nat) returns (p: Policy)
    requires 0 < k < |times| && Ordered(times[..k]) && times[k] < times[k - 1]
    ensures p.Valid() && !Agrees(p, times, k)
  {
    var before, now := times[..k], times[k];
    p := Policy(k, before[k - 1] - before[0] + 1);
    AllTaken(p, before);
    NothingExpires(before, now - p.window);
    CountAtMost(before[..k - 1], now - p.window, now);
    assert CountIn(before, now - p.window, now) == CountIn(before[..k - 1], now - p.window, now);
  }

  lemma {:induction false} FirstDescent(times: seq<int>) returns (k: nat)
    requires !Ordered(times)
    ensures 0 < k < |times| && Ordered(times[..k]) && times[k] < times[k - 1]
  {
    var before := times[..|times| - 1];
    if Ordered(before) {
      k := |times| - 1;
    } else {
      k := FirstDescent(before);
      assert before[..k] == times[..k];
    }
  }

  lemma OrderedAgrees(p: Policy, times: seq<int>, k: nat)
    requires p.Valid() && k < |times| && Ordered(times)
    ensures Agrees(p, times, k)
  {
    assert times[..k] + [times[k]] == times[..k + 1];
    DecidesByWholeHistory(p, times[..k], times[k]);
  }

  /** Under every policy every request is decided as the whole history says, exactly when the times never decrease. */
  lemma AgreesExactlyWhenOrdered(times: seq<int>)
    ensures Ordered(times) <==>
      forall p: Policy, k: nat :: p.Valid() && k < |times| ==> Agrees(p, times, k)
  {
    if Ordered(times) {
      forall p: Policy, k: nat | p.Valid() && k < |times| ensures Agrees(p, times, k) { OrderedAgrees(p, times, k); }
    } else {
      var k := FirstDescent(times);
      var p := FirstDescentDisagrees(times, k);
    }
  }

  /** `n` requests at time zero. */
  function Zeros(n: nat): (times: seq<int>)
    ensures |times| == n && forall i :: 0 <= i < n ==> times[i] == 0
  {
    if n == 0 then [] else Zeros(n - 1) + [0]
  }

  /** As many requests as the limit at one time, one that finds them expired, and one more at the old time. */
  function Burst(p: Policy): seq<int> { Zeros(p.max) + [p.window] + [0] }

  lemma {:induction false} ZerosExpire(n: nat)
    ensures Unexpired(Zeros(n), 0) == []
  {
    if n != 0 {
      assert Zeros(n)[1..] == Zeros(n - 1);
      ZerosExpire(n - 1);
    }
  }

  lemma {:induction false} ZerosCount(n: nat, from: int)
    requires from < 0
    ensures CountIn(Zeros(n), from, 0) == n
  {
    if n != 0 { ZerosCount(n - 1, from); }
  }

  lemma BurstTaken(p: Policy)
    requires p.Valid() && p.max >= 2
    ensures After(p, Burst(p)) == Past([p.window, 0], Zeros(p.max) + [p.window] + [0])
  {
    var zeros := Zeros(p.max);
    AllTaken(p, zeros);
    AfterAppend(p, zeros, p.window);
    ZerosForgotten(p);
    LateRequestTaken(p, zeros + [p.window]);
    AfterAppend(p, zeros + [p.window], 0);
  }

  lemma ZerosForgotten(p: Policy)
    requires p.Valid()
    ensures Requested(p, Past(Zeros(p.max), Zeros(p.max)), p.window) == Past([p.window], Zeros(p.max) + [p.window])
  {
    ZerosExpire(p.max);
  }

  lemma LateRequestTaken(p: Policy, history: seq<int>)
    requires p.Valid() && p.max >= 2
    ensures Requested(p, Past([p.window], history), 0) == Past([p.window, 0], history + [0])
  {
    NothingExpires([p.window], -p.window);
  }

  /** With a limit of two or more a late request with an old time finds the queue already pruned by a newer one. */
  lemma BurstOverflows(p: Policy)
    requires p.Valid() && p.max >= 2
    ensures CountIn(After(p, Burst(p)).history, -p.window, 0) == p.max + 1
  {
    var zeros := Zeros(p.max);
    BurstTaken(p);
    CountOfAppend(zeros + [p.window], 0, -p.window, 0);
    CountOfAppend(zeros, p.window, -p.window, 0);
    ZerosCount(p.max, -p.window);
  }

  /** With a limit of one, the queue is the last allowed time, and the next one is a whole window later. */
  ghost predicate Spaced(past: Past) {
    if past.history == [] then past.queue == []
    else past.queue == [past.history[|past.history| - 1]] && UpTo(past.history, past.queue[0])
  }

  lemma {:induction false} NoneAfter(times: seq<int>, from: int, to: int)
    requires UpTo(times, from)
    ensures CountIn(times, from, to) == 0
  {
    if times != [] { NoneAfter(times[..|times| - 1], from, to); }
  }

  lemma UnexpiredOne(x: int, cutoff: int)
    ensures Unexpired([x], cutoff) == if x <= cutoff then [] else [x]
  {
    assert [x][1..] == [] && Unexpired([], cutoff) == [];
  }

  lemma RequestedOne(p: Policy, past: Past, now: int)
    requires p.Valid() && p.max == 1 && |past.queue| <= 1
    ensures Requested(p, past, now) ==
      if past.queue == [] || past.queue[0] <= now - p.window then Past([now], past.history + [now]) else past
  {
    if past.queue != [] {
      assert past.queue == [past.queue[0]];
      UnexpiredOne(past.queue[0], now - p.window);
    } else {
      assert Unexpired([], now - p.window) == [];
    }
  }

  /** What one request does to a spaced past: nothing, or one more time a whole window later. */
  predicate Spacing(past: Past, next: Past, now: int, window: int) {
    next == past || (UpTo(past.history, now - window) && next == Past([now], past.history + [now]))
  }

  lemma SpacedStep(p: Policy, past: Past, now: int)
    requires p.Valid() && p.max == 1 && Spaced(past)
    ensures Spacing(past, Requested(p, past, now), now, p.window)
  {
    RequestedOne(p, past, now);
  }

  lemma SpacingStaysSpaced(past: Past, next: Past, now: int, window: int)
    requires Spaced(past) && Spacing(past, next, now, window) && 0 < window
    ensures Spaced(next)
  {
  }

  lemma OneWindowLater(history: seq<int>, now: int, window: int, t: int)
    requires 0 < window && UpTo(history, now - window) && CountIn(history, t - window, t) <= 1
    ensures CountIn(history + [now], t - window, t) <= 1
  {
    CountOfAppend(history, now, t - window, t);
    if t - window < now <= t { NoneAfter(history, t - window, t); }
  }

  lemma SpacingFits(p: Policy, past: Past, next: Past, now: int, t: int)
    requires p.Valid() && p.max == 1 && Spacing(past, next, now, p.window) && Fits(p, past, t)
    ensures Fits(p, next, t)
  {
    if next != past { OneWindowLater(past.history, now, p.window, t); }
  }

  lemma SingleStep(p: Policy, past: Past, now: int, t: int)
    requires p.Valid() && p.max == 1 && Spaced(past) && Fits(p, past, t)
    ensures Spaced(Requested(p, past, now)) && Fits(p, Requested(p, past, now), t)
  {
    SpacedStep(p, past, now);
    SpacingStaysSpaced(past, Requested(p, past, now), now, p.window);
    SpacingFits(p, past, Requested(p, past, now), now, t);
  }

  lemma {:induction false} SingleAlwaysFits(p: Policy, times: seq<int>, t: int)
    requires p.Valid() && p.max == 1
    ensures Spaced(After(p, times)) && Fits(p, After(p, times), t)
  {
    if times != [] {
      SingleAlwaysFits(p, times[..|times| - 1], t);
      SingleStep(p, After(p, times[..|times| - 1]), times[|times| - 1], t);
    }
  }

  /** With nondecreasing times, or a limit of one, no window anywhere ever holds more than the limit. */
  lemma NoWindowOverflows(p: Policy, times: seq<int>, t: int)
    requires p.Valid() && (Ordered(times) || p.max == 1)
    ensures Fits(p, After(p, times), t)
  {
    if Ordered(times) { OrderedAlwaysFits(p, times, t); } else { SingleAlwaysFits(p, times, t); }
  }

  /** For times in any order no window ever holds more than the limit, exactly when the limit is one. */
  lemma AnyOrderOverflowsExactly(p: Policy)
    requires p.Valid()
    ensures p.max == 1 <==> forall times: seq<int>, t: int :: Fits(p, After(p, times), t)
  {
    if p.max == 1 {
      forall times: seq<int>, t: int ensures Fits(p, After(p, times), t) { SingleAlwaysFits(p, times, t); }
    } else {
      BurstOverflows(p);
      assert !Fits(p, After(p, Burst(p)), 0);
    }
  }

  // ----- the advised wait -------------------------------------------------------------------------------------------

  /** The time until the oldest request that still counts leaves the window. */
  function ExactWait(p: Policy, past: Past, now: int): int
    requires p.Valid() && !Allows(p, past, now)
  {
    Unexpired(past.queue, now - p.window)[0] + p.window - now
  }

  lemma {:induction false} UnexpiredShorter(queue: seq<int>, cutoff: int)
    ensures |Unexpired(queue, cutoff)| <= |queue|
    decreases |queue|
  {
    if queue != [] { UnexpiredShorter(queue[1..], cutoff); }
  }

  /**
    A refused request waits a positive time, less than a second more than the advised whole seconds; with no other
    request meanwhile a retry is allowed exactly from the end of that wait on.
  */
  lemma AdvisedWait(p: Policy, past: Past, now: int, later: int)
    requires p.Valid() && |past.queue| <= p.max && !Allows(p, past, now) && now <= later
    ensures var advised := Decide(p, past.queue, now).1.seconds;
            && 1 <= advised && 0 < ExactWait(p, past, now) < (advised + 1) * 1_000_000
            && (advised == 1 || advised * 1_000_000 <= ExactWait(p, past, now))
    ensures Allows(p, Requested(p, past, now), later) <==> now + ExactWait(p, past, now) <= later
  {
    var left := Unexpired(past.queue, now - p.window);
    UnexpiredHead(past.queue, now - p.window);
    UnexpiredShorter(past.queue, now - p.window);
    if left[0] <= later - p.window { UnexpiredShorter(left[1..], later - p.window); }
  }

  /** The queue never grows past the limit, whatever the times. */
  lemma {:induction false} QueueNeverLong(p: Policy, times: seq<int>)
    requires p.Valid()
    ensures |After(p, times).queue| <= p.max
  {
    if times != [] {
      QueueNeverLong(p, times[..|times| - 1]);
      UnexpiredShorter(After(p, times[..|times| - 1]).queue, times[|times| - 1] - p.window);
    }
  }
}
