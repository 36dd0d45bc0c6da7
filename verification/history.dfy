/**
  The append-only attempt records of one CO: which attempts block another create, and what the owner's review can
  clear.
*/
module History {
  import opened Wrappers

  datatype Outcome =
    | DryRunPassed | Refused | CreatedUnverified | ReadbackVerified | UncertainSubmit | AttemptStarted | OwnerCleared

  datatype Entry = Entry(ref: Option<string>, revision: Option<string>, outcome: Outcome, reason: string,
    uuid: Option<string>)

  type Key = (Option<string>, Option<string>)

  const NOT_CLICKED := "confirm_not_clicked"
  const OWNER_REVIEWED := "owner_reviewed_confirm_not_clicked"

  function KeyOf(e: Entry): Key { (e.ref, e.revision) }

  predicate NeedsReview(outcome: Outcome) {
    outcome.UncertainSubmit? || outcome.CreatedUnverified? || outcome.AttemptStarted? || outcome.ReadbackVerified?
  }

  /** An outcome after which something may exist in production. */
  predicate Final(outcome: Outcome) { NeedsReview(outcome) && !outcome.AttemptStarted? }

  predicate IsNotClicked(e: Entry) { e.outcome.Refused? && e.reason == NOT_CLICKED }

  // ----- counting ---------------------------------------------------------------------------------------------------

  function Started(h: seq<Entry>, k: Key): nat {
    if h == [] then 0
    else Started(h[..|h| - 1], k) + (if KeyOf(h[|h| - 1]) == k && h[|h| - 1].outcome.AttemptStarted? then 1 else 0)
  }

  function NotClicked(h: seq<Entry>, k: Key): nat {
    if h == [] then 0
    else NotClicked(h[..|h| - 1], k) + (if KeyOf(h[|h| - 1]) == k && IsNotClicked(h[|h| - 1]) then 1 else 0)
  }

  function Clears(h: seq<Entry>, k: Key): nat {
    if h == [] then 0
    else Clears(h[..|h| - 1], k) + (if KeyOf(h[|h| - 1]) == k && h[|h| - 1].outcome.OwnerCleared? then 1 else 0)
  }

  predicate HasFinal(h: seq<Entry>, k: Key) {
    exists i :: 0 <= i < |h| && KeyOf(h[i]) == k && Final(h[i].outcome)
  }

  /**
    Every started attempt of the pair is matched by a not-clicked refusal and by an owner review, and nothing final
    is.
  */
  predicate Cleared(h: seq<Entry>, k: Key) {
    0 < Started(h, k) && Started(h, k) <= NotClicked(h, k) && Started(h, k) <= Clears(h, k) && !HasFinal(h, k)
  }

  function Count(m: map<Key, nat>, k: Key): nat { if k in m then m[k] else 0 }

  lemma CountsGrow(h: seq<Entry>, e: Entry, k: Key)
    ensures Started(h + [e], k) == Started(h, k) + (if KeyOf(e) == k && e.outcome.AttemptStarted? then 1 else 0)
    ensures NotClicked(h + [e], k) == NotClicked(h, k) + (if KeyOf(e) == k && IsNotClicked(e) then 1 else 0)
    ensures Clears(h + [e], k) == Clears(h, k) + (if KeyOf(e) == k && e.outcome.OwnerCleared? then 1 else 0)
    ensures HasFinal(h + [e], k) <==> HasFinal(h, k) || (KeyOf(e) == k && Final(e.outcome))
  {
    assert (h + [e])[..|h|] == h;
    assert HasFinal(h, k) ==> HasFinal(h + [e], k) by {
      if HasFinal(h, k) {
        var i :| 0 <= i < |h| && KeyOf(h[i]) == k && Final(h[i].outcome);
        assert (h + [e])[i] == h[i];
      }
    }
    assert (h + [e])[|h|] == e;
  }

  /** The four tables of the pass. */
  datatype Tally = Tally(started: map<Key, nat>, refused: map<Key, nat>, owner: map<Key, nat>, others: set<Key>)

  function Bumped(m: map<Key, nat>, k: Key): map<Key, nat> { m[k := Count(m, k) + 1] }

  function Tallied(t: Tally, r: Entry): Tally {
    if r.outcome.AttemptStarted? then t.(started := Bumped(t.started, KeyOf(r)))
    else if IsNotClicked(r) then t.(refused := Bumped(t.refused, KeyOf(r)))
    else if r.outcome.OwnerCleared? then t.(owner := Bumped(t.owner, KeyOf(r)))
    else if NeedsReview(r.outcome) then t.(others := t.others + {KeyOf(r)})
    else t
  }

  function TallyOf(h: seq<Entry>): Tally {
    if h == [] then Tally(map[], map[], map[], {}) else Tallied(TallyOf(h[..|h| - 1]), h[|h| - 1])
  }

  /** The tables hold the counts of every pair. */
  lemma {:induction false} TallyCounts(h: seq<Entry>, k: Key)
    ensures Count(TallyOf(h).started, k) == Started(h, k) && (k in TallyOf(h).started <==> 0 < Started(h, k))
    ensures Count(TallyOf(h).refused, k) == NotClicked(h, k) && Count(TallyOf(h).owner, k) == Clears(h, k)
    ensures k in TallyOf(h).others <==> HasFinal(h, k)
  {
    if h != [] {
      var before, r := h[..|h| - 1], h[|h| - 1];
      assert h == before + [r];
      TallyCounts(before, k);
      CountsGrow(before, r, k);
    }
  }

  /** The one pass with its four tables finds exactly the cleared pairs. */
  method ClearedAttempts(h: seq<Entry>) returns (cleared: set<Key>)
    ensures forall k :: k in cleared <==> Cleared(h, k)
  {
    var started: map<Key, nat>, refused: map<Key, nat>, owner: map<Key, nat> := map[], map[], map[];
    var others: set<Key> := {};
    for i := 0 to |h|
      invariant Tally(started, refused, owner, others) == TallyOf(h[..i])
    {
      var r := h[i];
      var key := KeyOf(r);
      assert h[..i + 1][..i] == h[..i];
      if r.outcome.AttemptStarted? {
        started := started[key := Count(started, key) + 1];
      } else if IsNotClicked(r) {
        refused := refused[key := Count(refused, key) + 1];
      } else if r.outcome.OwnerCleared? {
        owner := owner[key := Count(owner, key) + 1];
      } else if NeedsReview(r.outcome) {
        others := others + {key};
      }
    }
    assert h[..|h|] == h;
    cleared := set k | k in started && Count(refused, k) >= started[k] && Count(owner, k) >= started[k] && k !in others;
    forall k ensures k in cleared <==> Cleared(h, k) { TallyCounts(h, k); }
  }

  // ----- what blocks ------------------------------------------------------------------------------------------------

  predicate StillCounts(h: seq<Entry>, e: Entry) {
    !(e.outcome.AttemptStarted? && Cleared(h, KeyOf(e)))
  }

  /** The entries of `part` that still count, judged against the whole history. */
  function Counting(part: seq<Entry>, whole: seq<Entry>): (r: seq<Entry>)
    ensures forall e :: e in r <==> e in part && StillCounts(whole, e)
  {
    if part == [] then [] else
      var last := part[|part| - 1];
      assert part == part[..|part| - 1] + [last];
      Counting(part[..|part| - 1], whole) + (if StillCounts(whole, last) then [last] else [])
  }

  function ActiveHistory(h: seq<Entry>): seq<Entry> { Counting(h, h) }

  function Reviews(h: seq<Entry>): (r: seq<Entry>)
    ensures forall e :: e in r <==> e in h && NeedsReview(e.outcome)
  {
    if h == [] then [] else
      var last := h[|h| - 1];
      assert h == h[..|h| - 1] + [last];
      Reviews(h[..|h| - 1]) + (if NeedsReview(last.outcome) then [last] else [])
  }

  function ReviewCleared(h: seq<Entry>): bool {
    Reviews(h) != [] && Reviews(ActiveHistory(h)) == []
  }

  datatype Code = CreatedVerified | CreatedMismatch | OutcomeUnknown | DryRunOk | NoAttempt

  datatype Status = Status(code: Code, blocking: bool, uuid: Option<string>)

  const MISMATCH_REASONS := {
    "readback_name_mismatch", "readback_domains_mismatch", "readback_account_id_missing",
    "readback_account_id_mismatch",
    "readback_uuid_invalid", "readback_contract_mismatch", "readback_payload_mismatch"}

  function Rank(outcome: Outcome): nat {
    match outcome case UncertainSubmit => 1 case CreatedUnverified => 2 case ReadbackVerified => 3 case _ => 0
  }

  function UiCode(e: Entry): Code {
    match e.outcome
    case ReadbackVerified => CreatedVerified
    case CreatedUnverified => if e.reason in MISMATCH_REASONS then CreatedMismatch else OutcomeUnknown
    case _ => OutcomeUnknown
  }

  /** The first entry of the highest rank. */
  function MostFinal(review: seq<Entry>): (e: Entry)
    requires review != []
    ensures e in review && forall x :: x in review ==> Rank(x.outcome) <= Rank(e.outcome)
  {
    if |review| == 1 then review[0]
    else
      var best := MostFinal(review[..|review| - 1]);
      assert review == review[..|review| - 1] + [review[|review| - 1]];
      if Rank(best.outcome) < Rank(review[|review| - 1].outcome) then review[|review| - 1] else best
  }

  function CoStatus(h: seq<Entry>): Status {
    var active := ActiveHistory(h);
    var review := Reviews(active);
    if review != [] then
      var last := MostFinal(review);
      Status(UiCode(last), true, if UiCode(last).CreatedVerified? then last.uuid else None)
    else if exists i :: 0 <= i < |active| && active[i].outcome.DryRunPassed? then Status(DryRunOk, false, None)
    else Status(NoAttempt, false, None)
  }

  /** The refusal of a create over the loaded records, as the run itself judges them. */
  predicate PriorAttemptNeedsReview(h: seq<Entry>, clearedByOwner: bool) {
    !clearedByOwner && exists i :: 0 <= i < |h| && NeedsReview(h[i].outcome)
  }

  /** Some attempt still waits for the owner. */
  predicate Blocked(h: seq<Entry>) {
    exists e :: e in h && NeedsReview(e.outcome) && StillCounts(h, e)
  }

  lemma StatusBlocksWhenWaiting(h: seq<Entry>)
    ensures CoStatus(h).blocking <==> Blocked(h)
  {
    var review := Reviews(ActiveHistory(h));
    if review != [] { assert review[0] in review; }
  }

  /** The page and the run judge the same records the same way: the status blocks exactly when the run would refuse. */
  lemma StatusAgreesWithRun(h: seq<Entry>)
    ensures CoStatus(h).blocking <==> PriorAttemptNeedsReview(h, ReviewCleared(h))
  {
    StatusBlocksWhenWaiting(h);
    var left := Reviews(ActiveHistory(h));
    if left != [] { assert left[0] in left; }
    if Reviews(h) != [] { assert Reviews(h)[0] in Reviews(h); }
  }

  lemma ReviewsOfActive(h: seq<Entry>, e: Entry)
    ensures e in Reviews(ActiveHistory(h)) <==> e in h && NeedsReview(e.outcome) && StillCounts(h, e)
  {
  }

  /** A CO shows "created and verified" exactly when some attempt was verified, whatever else is recorded. */
  lemma VerifiedWins(h: seq<Entry>)
    ensures CoStatus(h).code.CreatedVerified? <==> exists e :: e in h && e.outcome.ReadbackVerified?
  {
    var review := Reviews(ActiveHistory(h));
    if e :| e in h && e.outcome.ReadbackVerified? { ReviewsOfActive(h, e); }
    if review != [] { ReviewsOfActive(h, MostFinal(review)); }
  }

  // ----- what a CO shows --------------------------------------------------------------------------------------------

  /** The entries of `part` that still wait, judged against the whole history. */
  function Waiting(part: seq<Entry>, whole: seq<Entry>): seq<Entry> { Reviews(Counting(part, whole)) }

  predicate Waits(whole: seq<Entry>, e: Entry) { NeedsReview(e.outcome) && StillCounts(whole, e) }

  lemma CountingGrows(part: seq<Entry>, x: Entry, whole: seq<Entry>)
    ensures Counting(part + [x], whole) == Counting(part, whole) + if StillCounts(whole, x) then [x] else []
  {
    assert (part + [x])[..|part|] == part;
  }

  lemma ReviewsGrow(part: seq<Entry>, x: Entry)
    ensures Reviews(part + [x]) == Reviews(part) + if NeedsReview(x.outcome) then [x] else []
  {
    assert (part + [x])[..|part|] == part;
  }

  lemma WaitingGrows(part: seq<Entry>, x: Entry, whole: seq<Entry>)
    ensures Waiting(part + [x], whole) == Waiting(part, whole) + if Waits(whole, x) then [x] else []
  {
    CountingGrows(part, x, whole);
    ReviewsGrow(Counting(part, whole), x);
    assert Counting(part, whole) + [] == Counting(part, whole);
    assert Reviews(Counting(part, whole)) + [] == Reviews(Counting(part, whole));
  }

  lemma MostFinalGrows(review: seq<Entry>, x: Entry)
    ensures MostFinal(review + [x]) ==
      if review != [] && Rank(MostFinal(review).outcome) >= Rank(x.outcome) then MostFinal(review) else x
  {
    assert (review + [x])[..|review|] == review;
  }

  /** Entry `i` waits, none before it that waits has its rank, and none after it a higher one. */
  predicate Decides(part: seq<Entry>, whole: seq<Entry>, i: nat) {
    i < |part| && Waits(whole, part[i])
    && (forall j :: 0 <= j < i && Waits(whole, part[j]) ==> Rank(part[j].outcome) < Rank(part[i].outcome))
    && (forall j :: i < j < |part| && Waits(whole, part[j]) ==> Rank(part[j].outcome) <= Rank(part[i].outcome))
  }

  lemma DecidesInLonger(part: seq<Entry>, x: Entry, whole: seq<Entry>, i: nat)
    requires Decides(part, whole, i)
    ensures if Waits(whole, x) && Rank(part[i].outcome) < Rank(x.outcome) then Decides(part + [x], whole, |part|)
            else Decides(part + [x], whole, i)
  {
  }

  lemma DecidingStep(before: seq<Entry>, x: Entry, whole: seq<Entry>, i: nat, earlier: seq<Entry>) returns (n: nat)
    requires earlier != [] && Decides(before, whole, i) && before[i] == MostFinal(earlier)
    ensures Decides(before + [x], whole, n)
    ensures (before + [x])[n] == MostFinal(earlier + if Waits(whole, x) then [x] else [])
  {
    DecidesInLonger(before, x, whole, i);
    MostFinalGrows(earlier, x);
    assert earlier + [] == earlier;
    n := if Waits(whole, x) && Rank(before[i].outcome) < Rank(x.outcome) then |before| else i;
  }

  lemma FirstToDecide(before: seq<Entry>, x: Entry, whole: seq<Entry>)
    requires Waiting(before, whole) == [] && Waits(whole, x)
    ensures Decides(before + [x], whole, |before|) && MostFinal([] + [x]) == x
  {
    NoneWaits(before, whole);
    assert [] + [x] == [x];
  }

  /** The entry that decides is the first of the highest rank among those that wait. */
  lemma {:induction false} DecidingEntry(part: seq<Entry>, whole: seq<Entry>, waiting: seq<Entry>) returns (i: nat)
    requires waiting == Waiting(part, whole) != []
    ensures Decides(part, whole, i) && part[i] == MostFinal(waiting)
    decreases |part|
  {
    var before, x := part[..|part| - 1], part[|part| - 1];
    var earlier := Waiting(before, whole);
    assert part == before + [x];
    WaitingGrows(before, x, whole);
    if earlier == [] {
      FirstToDecide(before, x, whole);
      i := |before|;
    } else {
      var n := DecidingEntry(before, whole, earlier);
      i := DecidingStep(before, x, whole, n, earlier);
    }
  }

  lemma NoneWaits(part: seq<Entry>, whole: seq<Entry>)
    requires Waiting(part, whole) == []
    ensures forall j :: 0 <= j < |part| ==> !Waits(whole, part[j])
  {
    assert forall j :: 0 <= j < |part| ==> (Waits(whole, part[j]) <==> part[j] in Waiting(part, whole));
  }

  /** Entry `i` is the first of `h` with this outcome. */
  predicate FirstWith(h: seq<Entry>, i: nat, outcome: Outcome) {
    i < |h| && h[i].outcome == outcome && forall j :: 0 <= j < i ==> h[j].outcome != outcome
  }

  predicate Recorded(h: seq<Entry>, outcome: Outcome) { exists e :: e in h && e.outcome == outcome }

  /**
    What a CO shows. Verified: the UUID of the first verified attempt. Else uncertain: unknown, unless an unverified
    create is on record; then the first of these decides, as a mismatch exactly for a comparison that failed. Else a
    started attempt that waits: unknown. Else a passed dry run, or nothing.
  */
  lemma StatusExactly(h: seq<Entry>)
    ensures Recorded(h, ReadbackVerified) ==>
      CoStatus(h).code.CreatedVerified?
      && exists i: nat :: FirstWith(h, i, ReadbackVerified) && CoStatus(h).uuid == h[i].uuid
    ensures !Recorded(h, ReadbackVerified) ==> CoStatus(h).uuid.None?
    ensures !Recorded(h, ReadbackVerified) && Recorded(h, CreatedUnverified) ==>
      exists i: nat :: FirstWith(h, i, CreatedUnverified)
        && CoStatus(h).code == if h[i].reason in MISMATCH_REASONS then CreatedMismatch else OutcomeUnknown
    ensures !Recorded(h, ReadbackVerified) && !Recorded(h, CreatedUnverified) ==>
      CoStatus(h).code == if Blocked(h) then OutcomeUnknown
                          else if Recorded(h, DryRunPassed) then DryRunOk else NoAttempt
  {
    StatusBlocksWhenWaiting(h);
    DryRunStays(h);
    if Waiting(h, h) != [] {
      var i := DecidingEntry(h, h, Waiting(h, h));
      FirstOfItsRank(h, i, ReadbackVerified);
      FirstOfItsRank(h, i, CreatedUnverified);
    } else {
      NoneWaits(h, h);
    }
  }

  /** A verified or unverified create always waits, so the deciding entry has no lower rank, and is the first of it. */
  lemma FirstOfItsRank(h: seq<Entry>, i: nat, outcome: Outcome)
    requires Decides(h, h, i) && (outcome.ReadbackVerified? || outcome.CreatedUnverified?)
    ensures Recorded(h, outcome) ==> Rank(h[i].outcome) >= Rank(outcome)
    ensures h[i].outcome == outcome ==> FirstWith(h, i, outcome)
  {
    if e :| e in h && e.outcome == outcome {
      var j :| 0 <= j < |h| && h[j] == e;
      assert Waits(h, h[j]);
    }
    forall j | 0 <= j < i && h[i].outcome == outcome ensures h[j].outcome != outcome {
      assert h[j].outcome == outcome ==> Waits(h, h[j]);
    }
  }

  lemma DryRunStays(h: seq<Entry>)
    ensures Recorded(h, DryRunPassed) <==>
      exists j :: 0 <= j < |ActiveHistory(h)| && ActiveHistory(h)[j].outcome.DryRunPassed?
  {
    if e :| e in h && e.outcome == DryRunPassed { assert e in ActiveHistory(h); }
  }

  // ----- reachable histories ----------------------------------------------------------------------------------------

  /** What the owner's clear tool accepts for one approval reference and revision. */
  predicate Clearable(h: seq<Entry>, k: Key) {
    0 < Started(h, k) && Started(h, k) <= NotClicked(h, k) && !HasFinal(h, k) && Clears(h, k) < Started(h, k)
  }

  predicate OfPair(e: Entry, k: Key) { e.ref == k.0 && e.revision == k.1 }

  function StartsIn(h: seq<Entry>, k: Key): set<int> {
    set i | 0 <= i < |h| && OfPair(h[i], k) && h[i].outcome.AttemptStarted?
  }

  function RefusalsIn(h: seq<Entry>, k: Key): set<int> {
    set i | 0 <= i < |h| && OfPair(h[i], k) && IsNotClicked(h[i])
  }

  function ReviewsIn(h: seq<Entry>, k: Key): set<int> {
    set i | 0 <= i < |h| && OfPair(h[i], k) && h[i].outcome.OwnerCleared?
  }

  /** A set of places that gains the place behind them all, or does not. */
  lemma WithLast(before: set<int>, after: set<int>, last: int, gained: bool)
    requires last !in before && (forall i :: i != last ==> (i in after <==> i in before)) && (last in after <==> gained)
    ensures |after| == |before| + if gained then 1 else 0
  {
    var more: set<int> := if gained then {last} else {};
    forall i ensures i in after <==> i in before + more {
      if i != last { assert i in after <==> i in before; }
    }
    assert after == before + more;
  }

  lemma {:induction false} StartsCounted(h: seq<Entry>, k: Key)
    ensures Started(h, k) == |StartsIn(h, k)|
  {
    if h != [] {
      var before, last := h[..|h| - 1], |h| - 1;
      StartsCounted(before, k);
      WithLast(StartsIn(before, k), StartsIn(h, k), last, OfPair(h[last], k) && h[last].outcome.AttemptStarted?);
    }
  }

  lemma {:induction false} RefusalsCounted(h: seq<Entry>, k: Key)
    ensures NotClicked(h, k) == |RefusalsIn(h, k)|
  {
    if h != [] {
      var before, last := h[..|h| - 1], |h| - 1;
      RefusalsCounted(before, k);
      WithLast(RefusalsIn(before, k), RefusalsIn(h, k), last, OfPair(h[last], k) && IsNotClicked(h[last]));
    }
  }

  lemma {:induction false} ReviewsCounted(h: seq<Entry>, k: Key)
    ensures Clears(h, k) == |ReviewsIn(h, k)|
  {
    if h != [] {
      var before, last := h[..|h| - 1], |h| - 1;
      ReviewsCounted(before, k);
      WithLast(ReviewsIn(before, k), ReviewsIn(h, k), last, OfPair(h[last], k) && h[last].outcome.OwnerCleared?);
    }
  }

  /**
    The tool clears a pair exactly when it has attempts that were started, at least as many refusals of an untouched
    click, fewer reviews, and no uncertain, unverified or verified outcome.
  */
  lemma ClearableExactly(h: seq<Entry>, k: Key)
    ensures Clearable(h, k) <==>
      && 1 <= |StartsIn(h, k)| <= |RefusalsIn(h, k)| && |ReviewsIn(h, k)| < |StartsIn(h, k)|
      && forall e :: e in h && OfPair(e, k) ==>
           !e.outcome.UncertainSubmit? && !e.outcome.CreatedUnverified? && !e.outcome.ReadbackVerified?
  {
    StartsCounted(h, k);
    RefusalsCounted(h, k);
    ReviewsCounted(h, k);
    assert HasFinal(h, k) <==> exists e :: e in h && KeyOf(e) == k && Final(e.outcome);
  }

  /**
    One append: a run may record anything but an owner review; the tool records its review of a pair that was clearable
    when it looked, at the first `look` entries, whatever was appended since.
  */
  predicate MayAppend(h: seq<Entry>, e: Entry, look: nat) {
    look <= |h| && (e.outcome.OwnerCleared? ==> Clearable(h[..look], KeyOf(e)))
  }

  /** The appends one by one, `looks` telling for each how many entries its author had seen. */
  predicate Reachable(h: seq<Entry>, looks: seq<nat>) {
    |looks| == |h|
    && (h == []
        || (Reachable(h[..|h| - 1], looks[..|h| - 1]) && MayAppend(h[..|h| - 1], h[|h| - 1], looks[|h| - 1])))
  }

  predicate SamePairReviews(d: Entry, e: Entry) {
    d.outcome.OwnerCleared? && e.outcome.OwnerCleared? && KeyOf(d) == KeyOf(e)
  }

  /** No two reviews of one pair overlap: each tool looked after every earlier review of its pair was on file. */
  predicate ReviewsApart(h: seq<Entry>, looks: seq<nat>) {
    forall i, j :: 0 <= i < j < |h| && j < |looks| && SamePairReviews(h[i], h[j]) ==> i < looks[j]
  }

  lemma {:induction false} CountsOfPrefix(h: seq<Entry>, n: nat, k: Key)
    requires n <= |h|
    ensures Started(h[..n], k) <= Started(h, k) && NotClicked(h[..n], k) <= NotClicked(h, k)
    ensures (forall i :: n <= i < |h| ==> !(h[i].outcome.OwnerCleared? && KeyOf(h[i]) == k)) ==>
      Clears(h[..n], k) == Clears(h, k)
    decreases |h|
  {
    if n < |h| {
      CountsOfPrefix(h[..|h| - 1], n, k);
      assert h[..|h| - 1][..n] == h[..n];
    } else {
      assert h[..n] == h;
    }
  }

  /** A review whose tool saw every earlier one of its pair clears an attempt that none of them had cleared. */
  lemma ReviewApart(h: seq<Entry>, e: Entry, look: nat)
    requires MayAppend(h, e, look) && e.outcome.OwnerCleared?
    requires forall i :: 0 <= i < |h| && h[i].outcome.OwnerCleared? && KeyOf(h[i]) == KeyOf(e) ==> i < look
    ensures Clears(h, KeyOf(e)) < Started(h, KeyOf(e))
    ensures Clears(h, KeyOf(e)) + 1 == Started(h, KeyOf(e)) ==> Started(h, KeyOf(e)) <= NotClicked(h, KeyOf(e))
  {
    CountsOfPrefix(h, look, KeyOf(e));
  }

  /**
    Unless two tools overlap on a pair, the owner never clears more attempts of it than were started, and the last clear
    finds all of them not clicked.
  */
  lemma {:induction false} ClearsNeverExceedStarts(h: seq<Entry>, looks: seq<nat>, k: Key)
    requires Reachable(h, looks) && ReviewsApart(h, looks)
    ensures Clears(h, k) <= Started(h, k)
    ensures Clears(h, k) == Started(h, k) ==> Started(h, k) <= NotClicked(h, k)
  {
    if h != [] {
      var before, e, look := h[..|h| - 1], h[|h| - 1], looks[|h| - 1];
      assert h == before + [e];
      assert ReviewsApart(before, looks[..|h| - 1]);
      ClearsNeverExceedStarts(before, looks[..|h| - 1], k);
      CountsGrow(before, e, k);
      if e.outcome.OwnerCleared? && KeyOf(e) == k {
        forall i | 0 <= i < |before| && before[i].outcome.OwnerCleared?
          && KeyOf(before[i]) == KeyOf(e) ensures i < look {
          assert h[i] == before[i];
        }
        ReviewApart(before, e, look);
      }
    }
  }

  /** So a new attempt always blocks again, even under a pair the owner had cleared. */
  lemma NewAttemptBlocks(h: seq<Entry>, looks: seq<nat>, e: Entry)
    requires Reachable(h, looks) && ReviewsApart(h, looks) && e.outcome.AttemptStarted?
    ensures CoStatus(h + [e]).blocking && PriorAttemptNeedsReview(h + [e], ReviewCleared(h + [e]))
  {
    ClearsNeverExceedStarts(h, looks, KeyOf(e));
    CountsGrow(h, e, KeyOf(e));
    assert e in h + [e] && StillCounts(h + [e], e);
    StatusBlocksWhenWaiting(h + [e]);
    StatusAgreesWithRun(h + [e]);
  }

  /**
    In any history, whatever appended to it: a new attempt counts exactly when nothing on file clears it in advance.
  */
  lemma NewAttemptCountsExactly(h: seq<Entry>, e: Entry)
    requires e.outcome.AttemptStarted?
    ensures StillCounts(h + [e], e) <==>
      Clears(h, KeyOf(e)) <= Started(h, KeyOf(e)) || NotClicked(h, KeyOf(e)) <= Started(h, KeyOf(e))
      || HasFinal(h, KeyOf(e))
  {
    CountsGrow(h, e, KeyOf(e));
  }

  lemma ReachableStep(h: seq<Entry>, looks: seq<nat>, e: Entry, look: nat)
    requires Reachable(h, looks) && MayAppend(h, e, look)
    ensures Reachable(h + [e], looks + [look])
  {
    assert (h + [e])[..|h|] == h && (looks + [look])[..|h|] == looks;
  }

  function AttemptOf(k: Key): Entry { Entry(k.0, k.1, AttemptStarted, "", None) }

  function RefusalOf(k: Key): Entry { Entry(k.0, k.1, Refused, NOT_CLICKED, None) }

  function ReviewOf(k: Key): Entry { Entry(k.0, k.1, OwnerCleared, OWNER_REVIEWED, None) }

  predicate Counted(h: seq<Entry>, k: Key, started: nat, refused: nat, clears: nat) {
    Started(h, k) == started && NotClicked(h, k) == refused && Clears(h, k) == clears && !HasFinal(h, k)
  }

  lemma MoreCounted(h: seq<Entry>, e: Entry, k: Key, started: nat, refused: nat, clears: nat)
    requires Counted(h, k, started, refused, clears) && KeyOf(e) == k
    ensures e == AttemptOf(k) ==> Counted(h + [e], k, started + 1, refused, clears)
    ensures e == RefusalOf(k) ==> Counted(h + [e], k, started, refused + 1, clears)
    ensures e == ReviewOf(k) ==> Counted(h + [e], k, started, refused, clears + 1)
  {
    CountsGrow(h, e, k);
  }

  /** Two tools that both looked after one refused attempt clear it twice. */
  lemma ClearedTwice(k: Key)
    ensures var h := [] + [AttemptOf(k)] + [RefusalOf(k)] + [ReviewOf(k)] + [ReviewOf(k)];
            Reachable(h, [] + [0] + [1] + [2] + [2]) && Counted(h, k, 1, 1, 2)
  {
    var one := [] + [AttemptOf(k)] + [RefusalOf(k)];
    MoreCounted([], AttemptOf(k), k, 0, 0, 0);
    MoreCounted([] + [AttemptOf(k)], RefusalOf(k), k, 1, 0, 0);
    MoreCounted(one, ReviewOf(k), k, 1, 1, 0);
    MoreCounted(one + [ReviewOf(k)], ReviewOf(k), k, 1, 1, 1);
    ReachableStep([], [], AttemptOf(k), 0);
    ReachableStep([] + [AttemptOf(k)], [] + [0], RefusalOf(k), 1);
    assert one[..2] == one && (one + [ReviewOf(k)])[..2] == one;
    ReachableStep(one, [] + [0] + [1], ReviewOf(k), 2);
    ReachableStep(one + [ReviewOf(k)], [] + [0] + [1] + [2], ReviewOf(k), 2);
  }

  /** And the second clear is left for the next attempt of the pair: refused again, it is cleared without a review. */
  lemma OverlappingReviewsClearInAdvance(k: Key)
    ensures var twice := [] + [AttemptOf(k)] + [RefusalOf(k)] + [ReviewOf(k)] + [ReviewOf(k)];
            var h, looks := twice + [AttemptOf(k)] + [RefusalOf(k)], [] + [0] + [1] + [2] + [2] + [4] + [5];
            Reachable(h, looks) && Clears(twice, k) > Started(twice, k) && Cleared(h, k)
  {
    var twice := [] + [AttemptOf(k)] + [RefusalOf(k)] + [ReviewOf(k)] + [ReviewOf(k)];
    ClearedTwice(k);
    MoreCounted(twice, AttemptOf(k), k, 1, 1, 2);
    MoreCounted(twice + [AttemptOf(k)], RefusalOf(k), k, 2, 1, 2);
    ReachableStep(twice, [] + [0] + [1] + [2] + [2], AttemptOf(k), 4);
    ReachableStep(twice + [AttemptOf(k)], [] + [0] + [1] + [2] + [2] + [4], RefusalOf(k), 5);
  }

  /**
    After an uncertain, unverified or verified create the CO is blocked whatever is appended later, reviews included.
  */
  lemma FinalBlocksForEver(h: seq<Entry>, later: seq<Entry>, e: Entry)
    requires e in h && Final(e.outcome)
    ensures CoStatus(h + later).blocking && PriorAttemptNeedsReview(h + later, ReviewCleared(h + later))
  {
    assert e in h + later && StillCounts(h + later, e);
    StatusBlocksWhenWaiting(h + later);
    StatusAgreesWithRun(h + later);
  }

  lemma {:induction false} StartedEntry(h: seq<Entry>, k: Key)
    ensures 0 < Started(h, k) <==> exists e :: e in h && e.outcome.AttemptStarted? && KeyOf(e) == k
  {
    if h != [] {
      StartedEntry(h[..|h| - 1], k);
      assert h == h[..|h| - 1] + [h[|h| - 1]];
    }
  }

  /** The entry `x` counted, and `e` is what made it stop counting. */
  lemma ReviewStopsCounting(h: seq<Entry>, looks: seq<nat>, e: Entry, x: Entry)
    requires Reachable(h, looks) && ReviewsApart(h, looks)
    requires x in h && StillCounts(h, x) && !StillCounts(h + [e], x)
    ensures e.outcome.OwnerCleared? && KeyOf(e) == KeyOf(x)
    ensures Clears(h + [e], KeyOf(e)) == Started(h, KeyOf(e)) && Started(h, KeyOf(e)) <= NotClicked(h, KeyOf(e))
  {
    CountsGrow(h, e, KeyOf(x));
    StartedEntry(h, KeyOf(x));
    ClearsNeverExceedStarts(h, looks, KeyOf(x));
  }

  /**
    Unless two tools overlap on a pair, the only append that unblocks a CO is the owner's review of a pair whose every
    attempt provably sent nothing, and it is the last review that pair was missing.
  */
  lemma OnlyReviewUnblocks(h: seq<Entry>, looks: seq<nat>, e: Entry)
    requires Reachable(h, looks) && ReviewsApart(h, looks)
    requires CoStatus(h).blocking && !CoStatus(h + [e]).blocking
    ensures e.outcome.OwnerCleared?
    ensures Clears(h + [e], KeyOf(e)) == Started(h, KeyOf(e)) && Started(h, KeyOf(e)) <= NotClicked(h, KeyOf(e))
  {
    StatusBlocksWhenWaiting(h);
    StatusBlocksWhenWaiting(h + [e]);
    var x :| x in h && NeedsReview(x.outcome) && StillCounts(h, x);
    assert x in h + [e] && !StillCounts(h + [e], x);
    ReviewStopsCounting(h, looks, e, x);
  }
}
