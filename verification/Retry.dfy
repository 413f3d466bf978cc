/** The retry loop of the sender and the reading of Retry-After (internal/sentinel/sender/sender.go). */
module Retry {
  import opened Bits
  import opened Wrappers
  import opened GoTime

  const MAX_WAIT := 30 * SECOND

  datatype Outcome = Done | Fail | RetryAfter(wait: int)

  /** The header's seconds (an int64) as a duration: the product wraps, then is clamped from above. */
  function RequestedWait(secs: int): (wait: int)
    ensures wait <= 30_000_000_000
    ensures 0 <= secs && secs * SECOND <= MAX_INT64 ==> wait == Min(secs * 1_000_000_000, 30_000_000_000)
  {
    var wait := Wrap64(secs * SECOND);
    if wait > MAX_WAIT then MAX_WAIT else wait
  }

  /** One POST: the response status and the Retry-After header, when there is one that parses. */
  function Post(status: Option<int>, retryAfter: Option<int>): (o: Outcome)
    ensures o == Done <==> status.Some? && 200 <= status.value < 300
    ensures o.RetryAfter? <==> status == Some(429) && retryAfter.Some?
    ensures o.RetryAfter? ==> o.wait <= 30_000_000_000
    ensures o.RetryAfter? && retryAfter.value >= 0 && retryAfter.value * SECOND <= MAX_INT64 ==>
              o.wait == Min(retryAfter.value * 1_000_000_000, 30_000_000_000)
  {
    match status
    case None => Fail
    case Some(code) =>
      if code == 429 then (if retryAfter.Some? then RetryAfter(RequestedWait(retryAfter.value)) else Fail)
      else if code < 200 || code >= 300 then Fail
      else Done
  }

  const WORD := 0x1_0000_0000_0000_0000

  /** What the header is for: the wait asked for, or 30 seconds if that is less. The code keeps to it
      exactly for headers whose nanoseconds fit an int64, and for those too large ones whose
      nanoseconds, modulo 2^64, happen to come out at 30 seconds or more. */
  lemma WaitHonouredIff(secs: int)
    ensures RequestedWait(secs) == Min(secs * SECOND, MAX_WAIT)
            <==> MIN_INT64 <= secs * SECOND <= MAX_INT64
                 || (secs * SECOND > MAX_INT64 && MAX_WAIT <= secs * SECOND % WORD <= MAX_INT64)
  {
    hide Wrap64;
    WrapCases(secs * SECOND);
  }

  /** The wait is over at once exactly when the header's nanoseconds, modulo 2^64, are zero or have
      their top bit set. */
  lemma NoWaitIff(secs: int)
    ensures RequestedWait(secs) <= 0 <==> secs * SECOND % WORD == 0 || secs * SECOND % WORD > MAX_INT64
  {
    hide Wrap64;
    WrapCases(secs * SECOND);
  }

  lemma WrapCases(x: int)
    ensures Wrap64(x) == if x % WORD <= MAX_INT64 then x % WORD else x % WORD - WORD
    ensures MIN_INT64 <= x <= MAX_INT64 ==> Wrap64(x) == x
    ensures x % WORD == x || !(0 <= x < WORD)
  {}

  /** Witnesses: 18446744074 seconds, some 585 years, are taken as 0.29 seconds, and 9223372037 seconds
      as no wait at all. */
  lemma RequestedWaitWraps()
    ensures RequestedWait(18446744074) == 290448384
    ensures RequestedWait(9223372037) < 0
  {
    assert 18446744074 * SECOND == WORD + 290448384;
  }

  // ---- the loop ----

  /** What lies between a failed call and the next one. */
  datatype Gap = Backoff(d: int) | Requested(d: int)

  datatype Result = Success | Cancelled | Exhausted

  function Doubled(backoff: int): int {
    var twice := Wrap64(2 * backoff);
    if twice > MAX_WAIT then MAX_WAIT else twice
  }

  /** The k-th exponential wait. */
  function Delay(initial: int, k: nat): int {
    if k == 0 then initial else Doubled(Delay(initial, k - 1))
  }

  function Backoffs(gaps: seq<Gap>): nat {
    if gaps == [] then 0 else Backoffs(gaps[..|gaps| - 1]) + (if gaps[|gaps| - 1].Backoff? then 1 else 0)
  }

  /** The gap a call asks for, when the exponential wait has come to `delay`. */
  predicate Asked(o: Outcome, gap: Gap, delay: int) {
    match o
    case Done => false
    case Fail => gap == Backoff(delay)
    case RetryAfter(wait) => gap == Requested(wait)
  }

  predicate GapFits(gaps: seq<Gap>, k: nat, outcome: nat -> Outcome, initial: int)
    requires k < |gaps|
  {
    Asked(outcome(k), gaps[k], Delay(initial, Backoffs(gaps[..k])))
  }

  /** Each gap is the one its failed call asks for, and exponential waits grow by their own count. */
  predicate GapsFit(gaps: seq<Gap>, outcome: nat -> Outcome, initial: int) {
    forall k: nat :: k < |gaps| ==> GapFits(gaps, k, outcome, initial)
  }

  /** `outcome(i)` is what the i-th call gives; `cancelled(k)` says whether the context ends the k-th
      gap. A gap of length Requested(0) starts no timer. */
  method Run(maxAttempts: int, initial: int, outcome: nat -> Outcome, cancelled: nat -> bool)
    returns (calls: nat, gaps: seq<Gap>, r: Result)
    ensures calls == 0 <==> maxAttempts <= 0
    ensures calls <= maxAttempts || calls == 0
    ensures forall i: nat :: i + 1 < calls ==> outcome(i) != Done
    ensures r == Success <==> calls > 0 && outcome(calls - 1) == Done
    ensures r == Exhausted ==> calls == if maxAttempts > 0 then maxAttempts else 0
    ensures |gaps| == calls || |gaps| + 1 == calls
    ensures GapsFit(gaps, outcome, initial)
    ensures r == Cancelled ==> |gaps| == calls > 0 && cancelled(calls - 1) && gaps[calls - 1] != Requested(0)
    ensures forall k: nat :: k < (if r == Cancelled then |gaps| - 1 else |gaps|) ==> gaps[k] == Requested(0) || !cancelled(k)
    ensures r == Success ==> |gaps| + 1 == calls
    ensures r == Exhausted && calls > 0 ==> |gaps| == if outcome(calls - 1).RetryAfter? then calls else calls - 1
  {
    hide GapsFit, Delay, Backoffs, Doubled;
    var backoff := initial;
    var skipBackoff := false;
    calls, gaps := 0, [];
    NoGaps(outcome, initial);
    while calls < maxAttempts
      invariant calls == 0 || calls <= maxAttempts
      invariant forall i: nat :: i < calls ==> outcome(i) != Done
      invariant GapsFit(gaps, outcome, initial)
      invariant backoff == Delay(initial, Backoffs(gaps))
      invariant |gaps| == if calls == 0 || skipBackoff then calls else calls - 1
      invariant calls == 0 ==> !skipBackoff
      invariant calls > 0 ==> if skipBackoff then outcome(calls - 1).RetryAfter? else outcome(calls - 1) == Fail
      invariant forall k: nat :: k < |gaps| ==> gaps[k] == Requested(0) || !cancelled(k)
      decreases maxAttempts - calls
    {
      if calls > 0 && !skipBackoff {
        GapAppended(gaps, Backoff(backoff), outcome, initial);
        gaps := gaps + [Backoff(backoff)];
        if cancelled(|gaps| - 1) {
          return calls, gaps, Cancelled;
        }
        backoff := Doubled(backoff);
      }
      skipBackoff := false;
      var o := outcome(calls);
      calls := calls + 1;
      if o == Done {
        return calls, gaps, Success;
      }
      if o.RetryAfter? {
        GapAppended(gaps, Requested(o.wait), outcome, initial);
        gaps := gaps + [Requested(o.wait)];
        if o.wait != 0 && cancelled(|gaps| - 1) {
          return calls, gaps, Cancelled;
        }
        skipBackoff := true;
      }
    }
    r := Exhausted;
  }

  lemma NoGaps(outcome: nat -> Outcome, initial: int)
    ensures GapsFit([], outcome, initial) && Delay(initial, Backoffs([])) == initial
  {}

  lemma GapAppended(gaps: seq<Gap>, gap: Gap, outcome: nat -> Outcome, initial: int)
    requires GapsFit(gaps, outcome, initial)
    requires Asked(outcome(|gaps|), gap, Delay(initial, Backoffs(gaps)))
    ensures GapsFit(gaps + [gap], outcome, initial)
    ensures Delay(initial, Backoffs(gaps + [gap]))
         == if gap.Backoff? then Doubled(Delay(initial, Backoffs(gaps))) else Delay(initial, Backoffs(gaps))
  {
    hide Doubled, GapFits;
    var longer := gaps + [gap];
    assert longer[..|gaps|] == gaps;
    hide Delay, Backoffs;
    forall k: nat | k < |longer| ensures GapFits(longer, k, outcome, initial) {
      assert k < |gaps| ==> GapFits(gaps, k, outcome, initial);
      assert longer[..k] == gaps[..k];
      FitsPrefix(gaps, longer, k, outcome, initial);
    }
    GrowsBy(gaps, gap, initial);
  }

  lemma GrowsBy(gaps: seq<Gap>, gap: Gap, initial: int)
    ensures Delay(initial, Backoffs(gaps + [gap]))
         == if gap.Backoff? then Doubled(Delay(initial, Backoffs(gaps))) else Delay(initial, Backoffs(gaps))
  {
    hide Doubled;
    assert (gaps + [gap])[..|gaps|] == gaps;
  }

  lemma FitsPrefix(gaps: seq<Gap>, longer: seq<Gap>, k: nat, outcome: nat -> Outcome, initial: int)
    requires k < |longer| && k <= |gaps| && longer[..k] == gaps[..k]
    ensures k < |gaps| && longer[k] == gaps[k] && GapFits(gaps, k, outcome, initial) ==> GapFits(longer, k, outcome, initial)
    ensures k == |gaps| && Asked(outcome(k), longer[k], Delay(initial, Backoffs(gaps))) ==> GapFits(longer, k, outcome, initial)
  {
    hide Delay, Backoffs;
    assert gaps[..|gaps|] == gaps;
  }

  // ---- how long it can wait ----

  /** In closed form: initial * 2^k, capped at 30 seconds. */
  lemma {:induction false} DelayClosed(initial: int, k: nat)
    requires 0 <= initial <= 30_000_000_000
    ensures Delay(initial, k) == Min(initial * Pow2(k), 30_000_000_000)
    ensures initial * Pow2(k) >= 0
  {
    if k == 0 {
      assert initial * Pow2(0) == initial;
    } else {
      DelayClosed(initial, k - 1);
      DoublePower(initial, k);
      DoubledMin(initial * Pow2(k - 1));
    }
  }

  lemma DoublePower(initial: int, k: nat)
    requires k > 0
    ensures initial * Pow2(k) == 2 * (initial * Pow2(k - 1))
  {}

  lemma DoubledMin(x: int)
    requires x >= 0
    ensures Doubled(Min(x, MAX_WAIT)) == Min(2 * x, MAX_WAIT)
  {}

  /** No exponential wait exceeds 30 seconds exactly when the first one does not: only that one is
      not clamped. */
  lemma DelayBounded(initial: int)
    ensures (forall k: nat :: Delay(initial, k) <= MAX_WAIT) <==> initial <= MAX_WAIT
  {
    if forall k: nat :: Delay(initial, k) <= MAX_WAIT {
      assert Delay(initial, 0) <= MAX_WAIT;
    }
    if initial <= MAX_WAIT {
      forall k: nat ensures Delay(initial, k) <= MAX_WAIT {
        assert k > 0 ==> Delay(initial, k) == Doubled(Delay(initial, k - 1));
      }
    }
  }

  /** Time spent in gaps; a timer for a negative duration fires at once. */
  function Waited(gaps: seq<Gap>): nat {
    if gaps == [] then 0
    else
      var d := gaps[|gaps| - 1].d;
      Waited(gaps[..|gaps| - 1]) + if d > 0 then d else 0
  }

  /** Whatever the server asks for: with an initial wait of at most 30 seconds, the gaps of `n`
      attempts take at most n * 30 seconds. */
  lemma {:induction false} WaitBound(gaps: seq<Gap>, outcome: nat -> Outcome, initial: int)
    requires GapsFit(gaps, outcome, initial) && initial <= MAX_WAIT
    requires forall k: nat :: outcome(k).RetryAfter? ==> outcome(k).wait <= MAX_WAIT
    ensures Waited(gaps) <= |gaps| * MAX_WAIT
  {
    if gaps != [] {
      var n: nat := |gaps| - 1;
      var init := gaps[..n];
      hide Delay, Backoffs;
      forall k: nat | k < n ensures GapFits(init, k, outcome, initial) {
        assert init[..k] == gaps[..k] && GapFits(gaps, k, outcome, initial);
      }
      WaitBound(init, outcome, initial);
      DelayBounded(initial);
      assert GapFits(gaps, n, outcome, initial);
    }
  }

  /** The whole loop against a server that answers anything at all: how long it waits in all, and after
      each answer. A wait asked for within the 30 seconds is kept to exactly, and lets no exponential wait grow. */
  method RunBounded(maxAttempts: int, initial: int, answers: nat -> (Option<int>, Option<int>), cancelled: nat -> bool)
    returns (r: Result, calls: nat, gaps: seq<Gap>)
    requires initial <= MAX_WAIT && maxAttempts >= 0
    ensures |gaps| <= calls <= |gaps| + 1 && calls <= maxAttempts
    ensures Waited(gaps) <= maxAttempts * MAX_WAIT
    ensures r == Success <==> calls > 0 && Succeeded(answers(calls - 1).0)
    ensures forall k: nat :: k + 1 < calls ==> !Succeeded(answers(k).0)
    ensures r == Exhausted ==> calls == maxAttempts && forall k: nat :: k < maxAttempts ==> !Succeeded(answers(k).0)
    ensures forall k: nat, secs :: k < |gaps| && 0 <= secs <= 30 && answers(k) == (Some(429), Some(secs)) ==>
              gaps[k] == Requested(secs * SECOND)
    ensures forall k: nat :: k < |gaps| && (answers(k).0 != Some(429) || answers(k).1 == None) ==>
              gaps[k] == Backoff(Delay(initial, Backoffs(gaps[..k])))
  {
    hide GapsFit, Waited, Delay, Backoffs, Succeeded, Post;
    var outcome := (i: nat) => Post(answers(i).0, answers(i).1);
    calls, gaps, r := Run(maxAttempts, initial, outcome, cancelled);
    forall k: nat
      ensures outcome(k) == Post(answers(k).0, answers(k).1) && (outcome(k) == Done <==> Succeeded(answers(k).0))
      ensures outcome(k).RetryAfter? ==> outcome(k).wait <= MAX_WAIT
    {
      PostAnswers(answers(k).0, answers(k).1);
    }
    GapsAnswer(gaps, answers, outcome, initial);
    WaitBound(gaps, outcome, initial);
    MoreAttempts(|gaps|, maxAttempts);
  }

  lemma PostAnswers(status: Option<int>, retryAfter: Option<int>)
    ensures var o := Post(status, retryAfter);
            (o == Done <==> Succeeded(status)) && (o.RetryAfter? ==> o.wait <= MAX_WAIT)
  {}

  predicate Succeeded(status: Option<int>) { status.Some? && 200 <= status.value < 300 }

  lemma GapsAnswer(gaps: seq<Gap>, answers: nat -> (Option<int>, Option<int>), outcome: nat -> Outcome, initial: int)
    requires GapsFit(gaps, outcome, initial) && forall k: nat :: outcome(k) == Post(answers(k).0, answers(k).1)
    ensures forall k: nat, secs :: k < |gaps| && 0 <= secs <= 30 && answers(k) == (Some(429), Some(secs)) ==>
              gaps[k] == Requested(secs * SECOND)
    ensures forall k: nat :: k < |gaps| && (answers(k).0 != Some(429) || answers(k).1 == None) ==>
              gaps[k] == Backoff(Delay(initial, Backoffs(gaps[..k])))
  {
    hide Delay, Backoffs;
    forall k: nat | k < |gaps|
      ensures forall secs :: 0 <= secs <= 30 && answers(k) == (Some(429), Some(secs)) ==> gaps[k] == Requested(secs * SECOND)
      ensures answers(k).0 != Some(429) || answers(k).1 == None ==> gaps[k] == Backoff(Delay(initial, Backoffs(gaps[..k])))
    {
      assert GapFits(gaps, k, outcome, initial);
      assert outcome(k) == Post(answers(k).0, answers(k).1);
    }
  }

  lemma MoreAttempts(n: int, maxAttempts: int)
    requires n <= maxAttempts
    ensures n * MAX_WAIT <= maxAttempts * MAX_WAIT
  {}
}
