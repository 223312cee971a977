/** The sequential staging batch: which readings stop it, what it publishes before that, and how
    its counters account for every candidate. */
module StageBatch {

  /** How one document's reading ended. RateLimited and Unavailable are the endpoint's 429 and 503. */
  datatype Reading = Parsed | NoTxs | RateLimited | Unavailable | QuotaSpent | Misconfigured | Failed {
    predicate Succeeds() {
      Parsed? || NoTxs?
    }
  }

  const THRESHOLD: nat := 5

  // ---- what stops a batch, said without counters ----------------------------------------------

  function Count(readings: seq<Reading>, r: Reading): nat {
    if readings == [] then 0
    else Count(readings[..|readings| - 1], r) + if readings[|readings| - 1] == r then 1 else 0
  }

  predicate NoSuccess(readings: seq<Reading>) {
    forall i :: 0 <= i < |readings| ==> !readings[i].Succeeds()
  }

  /** Some stretch up to now has no success and enough rate-limited documents: other failures in
      between do not interrupt it. */
  predicate RateExhausted(readings: seq<Reading>) {
    exists i :: 0 <= i <= |readings| && NoSuccess(readings[i..]) && Count(readings[i..], RateLimited) >= THRESHOLD
  }

  /** The last documents were all unavailable, without interruption. */
  predicate Saturated(readings: seq<Reading>) {
    |readings| >= THRESHOLD && forall i :: |readings| - THRESHOLD <= i < |readings| ==> readings[i].Unavailable?
  }

  datatype Stop = GoOn | Quota | RateQuota | Saturation | Fatal

  /** Whether the batch stops at the last of these readings. */
  function StopAt(readings: seq<Reading>): Stop {
    if readings == [] then GoOn
    else
      match readings[|readings| - 1]
      case QuotaSpent => Quota
      case Misconfigured => Fatal
      case RateLimited => if RateExhausted(readings) then RateQuota else GoOn
      case Unavailable => if Saturated(readings) then Saturation else GoOn
      case _ => GoOn
  }

  /** No earlier document stops the batch. */
  ghost predicate Continues(readings: seq<Reading>) {
    forall k :: 0 < k <= |readings| ==> StopAt(readings[..k]).GoOn?
  }

  // ---- the counters -------------------------------------------------------------------------------

  /** Rate-limited documents since the last success. */
  function RateStreak(readings: seq<Reading>): nat {
    if readings == [] then 0
    else
      var before := RateStreak(readings[..|readings| - 1]);
      var last := readings[|readings| - 1];
      if last.Succeeds() then 0 else if last.RateLimited? then before + 1 else before
  }

  /** Unavailable documents at the very end. */
  function OutageStreak(readings: seq<Reading>): nat {
    if readings == [] || !readings[|readings| - 1].Unavailable? then 0
    else OutageStreak(readings[..|readings| - 1]) + 1
  }

  lemma {:induction false} RateStreakIsAStretch(readings: seq<Reading>)
    ensures exists i :: 0 <= i <= |readings| && NoSuccess(readings[i..])
                     && Count(readings[i..], RateLimited) == RateStreak(readings)
  {
    var n := |readings|;
    if readings == [] || readings[n - 1].Succeeds() {
      assert readings[n..] == [];
      assert NoSuccess(readings[n..]) && Count(readings[n..], RateLimited) == 0;
    } else {
      RateStreakIsAStretch(readings[..n - 1]);
      var i :| 0 <= i <= n - 1 && NoSuccess(readings[..n - 1][i..])
            && Count(readings[..n - 1][i..], RateLimited) == RateStreak(readings[..n - 1]);
      Extend(readings, i);
    }
  }

  lemma Extend(readings: seq<Reading>, i: nat)
    requires i < |readings| && !readings[|readings| - 1].Succeeds() && NoSuccess(readings[..|readings| - 1][i..])
    ensures NoSuccess(readings[i..])
    ensures Count(readings[i..], RateLimited)
         == Count(readings[..|readings| - 1][i..], RateLimited) + if readings[|readings| - 1].RateLimited? then 1 else 0
  {
    var last := |readings| - 1;
    assert readings[i..][..last - i] == readings[..last][i..];
    assert readings[i..] == readings[..last][i..] + [readings[last]];
  }

  lemma {:induction false} StretchWithinStreak(readings: seq<Reading>, i: nat)
    requires i <= |readings| && NoSuccess(readings[i..])
    ensures Count(readings[i..], RateLimited) <= RateStreak(readings)
    decreases |readings|
  {
    var last := |readings| - 1;
    if i < |readings| {
      assert readings[i..][last - i] == readings[last];
      assert readings[i..][..last - i] == readings[..last][i..];
      StretchWithinStreak(readings[..last], i);
    }
  }

  /** The rate counter reaches the threshold exactly when some success-free stretch is exhausted. */
  lemma RateCounterExact(readings: seq<Reading>)
    ensures RateStreak(readings) >= THRESHOLD <==> RateExhausted(readings)
  {
    RateStreakIsAStretch(readings);
    if RateExhausted(readings) {
      var i :| 0 <= i <= |readings| && NoSuccess(readings[i..]) && Count(readings[i..], RateLimited) >= THRESHOLD;
      StretchWithinStreak(readings, i);
    }
  }

  lemma {:induction false} OutageStreakExact(readings: seq<Reading>, n: nat)
    ensures OutageStreak(readings) >= n
       <==> n <= |readings| && forall i :: |readings| - n <= i < |readings| ==> readings[i].Unavailable?
  {
    if n > 0 && readings != [] {
      OutageStreakExact(readings[..|readings| - 1], n - 1);
    }
  }

  // ---- the batch ------------------------------------------------------------------------------------

  function Staged(readings: seq<Reading>): nat {
    Count(readings, Parsed) + Count(readings, NoTxs)
  }

  datatype Result = Result(staged: nat, errors: nat, remaining: nat, quotaStop: bool, quotaDead: bool,
                           saturated: bool, fatalStop: bool)

  /** Stages the candidates in order. Everything before the first stopping document is published,
      nothing from it on; every candidate is counted once. */
  method Batch(candidates: seq<Reading>) returns (r: Result, published: seq<Reading>)
    ensures Outcome(candidates, published)
    ensures r.staged == Staged(published) && r.errors == |published| - Staged(published)
    ensures r.staged + r.errors + r.remaining == |candidates|
    ensures var why := if published == candidates then GoOn else StopAt(candidates[..|published| + 1]);
            && r.fatalStop == why.Fatal? && r.quotaDead == why.RateQuota? && r.saturated == why.Saturation?
            && r.quotaStop == (why.Quota? || why.RateQuota? || why.Saturation?)
  {
    var staged, errors, rate, outage := 0, 0, 0, 0;
    published := [];
    for i := 0 to |candidates|
      invariant published == candidates[..i] && Continues(published)
      invariant rate == RateStreak(published) && outage == OutageStreak(published)
      invariant staged == Staged(published) && errors == i - staged
    {
      var now, reading := candidates[..i + 1], candidates[i];
      assert now[..i] == published && now == published + [reading];
      RateCounterExact(now);
      OutageStreakExact(now, THRESHOLD);
      var stop := GoOn;
      match reading {
        case QuotaSpent => stop := Quota;
        case Misconfigured => stop := Fatal;
        case RateLimited =>
          outage, rate := 0, rate + 1;
          if rate >= THRESHOLD {
            stop := RateQuota;
          }
        case Unavailable =>
          outage := outage + 1;
          if outage >= THRESHOLD {
            stop := Saturation;
          }
        case Parsed => rate, outage := 0, 0;
        case NoTxs => rate, outage := 0, 0;
        case Failed => outage := 0;
      }
      if !stop.GoOn? {
        return Result(staged, errors, |candidates| - i, !stop.Fatal?, stop.RateQuota?, stop.Saturation?, stop.Fatal?),
               published;
      }
      StillContinues(now);
      published := published + [reading];
      if reading.Succeeds() {
        staged := staged + 1;
      } else {
        errors := errors + 1;
      }
    }
    return Result(staged, errors, 0, false, false, false, false), published;
  }

  lemma StillContinues(readings: seq<Reading>)
    requires readings != [] && Continues(readings[..|readings| - 1]) && StopAt(readings).GoOn?
    ensures Continues(readings)
  {
    forall k | 0 < k <= |readings|
      ensures StopAt(readings[..k]).GoOn?
    {
      if k < |readings| {
        assert readings[..|readings| - 1][..k] == readings[..k];
      } else {
        assert readings[..k] == readings;
      }
    }
  }

  /** The contract of Batch on what it publishes. */
  ghost predicate Outcome(candidates: seq<Reading>, published: seq<Reading>) {
    && published <= candidates && Continues(published)
    && (|published| < |candidates| ==> !StopAt(candidates[..|published| + 1]).GoOn?)
  }

  /** The candidates alone determine what a batch publishes, and so where and why it stops. */
  lemma OutcomeUnique(candidates: seq<Reading>, a: seq<Reading>, b: seq<Reading>)
    requires Outcome(candidates, a) && Outcome(candidates, b)
    ensures a == b
  {
    if |a| < |b| {
      NoEarlierStop(candidates, a, b);
    } else if |b| < |a| {
      NoEarlierStop(candidates, b, a);
    }
  }

  lemma NoEarlierStop(candidates: seq<Reading>, a: seq<Reading>, b: seq<Reading>)
    requires Outcome(candidates, a) && b <= candidates && Continues(b)
    ensures |b| <= |a|
  {
    if |a| < |b| {
      PrefixOf(candidates, b, |a| + 1);
    }
  }

  lemma PrefixOf(candidates: seq<Reading>, b: seq<Reading>, k: nat)
    requires b <= candidates && k <= |b|
    ensures candidates[..k] == b[..k]
  {
  }

  // ---- which candidates a batch gets through ----------------------------------------------------------

  /** Where the rate limits of a stretch are. */
  ghost function Limited(readings: seq<Reading>, i: nat, j: nat): set<nat> {
    set k: nat | i <= k < j && k < |readings| && readings[k].RateLimited?
  }

  ghost predicate Successless(readings: seq<Reading>, i: nat, j: nat) {
    forall k :: i <= k < j && k < |readings| ==> !readings[k].Parsed? && !readings[k].NoTxs?
  }

  /** Five unavailable documents in a row. */
  predicate Outage(readings: seq<Reading>, i: nat) {
    i + 5 <= |readings| && forall k :: i <= k < i + 5 ==> readings[k] == Unavailable
  }

  /** The last reading is what its stop says, with four more like it where the stop counts. */
  ghost predicate Explains(readings: seq<Reading>, stop: Stop) {
    readings != [] && var n, last := |readings|, readings[|readings| - 1];
    match stop
    case GoOn => false
    case Quota => last == QuotaSpent
    case Fatal => last == Misconfigured
    case RateQuota => last == RateLimited && exists i: nat :: Successless(readings, i, n) && |Limited(readings, i, n)| >= 5
    case Saturation => n >= 5 && Outage(readings, n - 5)
  }

  lemma {:induction false} CountIsLimited(readings: seq<Reading>, i: nat)
    requires i <= |readings|
    ensures Count(readings[i..], RateLimited) == |Limited(readings, i, |readings|)|
    decreases |readings|
  {
    var n := |readings|;
    if i == n {
      assert Limited(readings, i, n) == {};
    } else {
      var rest := readings[..n - 1];
      CountIsLimited(rest, i);
      assert readings[i..][..n - 1 - i] == rest[i..];
      assert Limited(readings, i, n) == Limited(rest, i, n - 1) + if readings[n - 1].RateLimited? then {n - 1} else {};
    }
  }

  lemma ExhaustedExactly(readings: seq<Reading>)
    ensures RateExhausted(readings)
       <==> exists i: nat :: Successless(readings, i, |readings|) && |Limited(readings, i, |readings|)| >= 5
  {
    var n := |readings|;
    forall i: nat | i <= n
      ensures NoSuccess(readings[i..]) <==> Successless(readings, i, n)
      ensures Count(readings[i..], RateLimited) == |Limited(readings, i, n)|
    {
      CountIsLimited(readings, i);
      assert forall k :: i <= k < n ==> readings[i..][k - i] == readings[k];
    }
    forall i: nat | i > n
      ensures |Limited(readings, i, n)| == 0
    {
      assert Limited(readings, i, n) == {};
    }
  }

  /** A batch stops at a document, and for a given reason, exactly when that reason is there. */
  lemma StopsExactly(readings: seq<Reading>, stop: Stop)
    requires !stop.GoOn?
    ensures StopAt(readings) == stop <==> Explains(readings, stop)
  {
    ExhaustedExactly(readings);
  }

  /** Some stop is explained at no place of the list. */
  ghost predicate Unstopped(candidates: seq<Reading>) {
    && QuotaSpent !in candidates && Misconfigured !in candidates
    && (forall i: nat, j: nat :: j <= |candidates| && Successless(candidates, i, j) ==> |Limited(candidates, i, j)| < 5)
    && (forall i: nat :: !Outage(candidates, i))
  }

  /** A batch publishes every candidate exactly when no quota is spent, no reading is misconfigured, no
      stretch without a success holds five rate limits and no five documents in a row are unavailable. */
  lemma CompletesExactly(candidates: seq<Reading>)
    ensures Outcome(candidates, candidates) <==> Unstopped(candidates)
  {
    if Outcome(candidates, candidates) {
      CompletedIsUnstopped(candidates);
    }
    if Unstopped(candidates) {
      forall k | 0 < k <= |candidates|
        ensures StopAt(candidates[..k]).GoOn?
      {
        UnstoppedGoesOn(candidates, k);
      }
    }
  }

  lemma PrefixLimited(candidates: seq<Reading>, i: nat, j: nat)
    requires j <= |candidates|
    ensures Limited(candidates[..j], i, j) == Limited(candidates, i, j)
    ensures Successless(candidates[..j], i, j) <==> Successless(candidates, i, j)
  {
    assert forall k :: 0 <= k < j ==> candidates[..j][k] == candidates[k];
  }

  lemma UnstoppedGoesOn(candidates: seq<Reading>, k: nat)
    requires Unstopped(candidates) && 0 < k <= |candidates|
    ensures StopAt(candidates[..k]).GoOn?
  {
    var now := candidates[..k];
    var stop := StopAt(now);
    if !stop.GoOn? {
      StopsExactly(now, stop);
      forall i: nat
        ensures Limited(now, i, k) == Limited(candidates, i, k) && (Successless(now, i, k) <==> Successless(candidates, i, k))
      {
        PrefixLimited(candidates, i, k);
      }
      assert now[k - 1] in candidates;
      if stop.Saturation? {
        assert Outage(candidates, k - 5);
      }
    }
  }

  lemma CompletedIsUnstopped(candidates: seq<Reading>)
    requires Outcome(candidates, candidates)
    ensures Unstopped(candidates)
  {
    forall k: nat | 0 < k <= |candidates|
      ensures forall stop: Stop :: !Explains(candidates[..k], stop)
    {
      forall stop: Stop
        ensures !Explains(candidates[..k], stop)
      {
        if !stop.GoOn? {
          StopsExactly(candidates[..k], stop);
        }
      }
    }
    NoSpentQuota(candidates);
    forall i: nat, j: nat | j <= |candidates| && Successless(candidates, i, j)
      ensures |Limited(candidates, i, j)| < 5
    {
      ShortStretch(candidates, i, j);
    }
    forall i: nat
      ensures !Outage(candidates, i)
    {
      if i + 5 <= |candidates| {
        assert Outage(candidates, i) ==> Outage(candidates[..i + 5], i);
        assert !Explains(candidates[..i + 5], Saturation);
      }
    }
  }

  lemma NoSpentQuota(candidates: seq<Reading>)
    requires forall k: nat, stop: Stop :: 0 < k <= |candidates| ==> !Explains(candidates[..k], stop)
    ensures QuotaSpent !in candidates && Misconfigured !in candidates
  {
    forall k: nat | k < |candidates|
      ensures candidates[k] != QuotaSpent && candidates[k] != Misconfigured
    {
      var now := candidates[..k + 1];
      assert now[k] == candidates[k];
      assert !Explains(now, Quota) && !Explains(now, Fatal);
    }
  }

  /** A stretch with five rate limits ends, at its last one, where the batch stops. */
  lemma {:induction false} ShortStretch(candidates: seq<Reading>, i: nat, j: nat)
    requires forall k: nat, stop: Stop :: 0 < k <= |candidates| ==> !Explains(candidates[..k], stop)
    requires j <= |candidates| && Successless(candidates, i, j)
    ensures |Limited(candidates, i, j)| < 5
    decreases j
  {
    if j <= i {
      assert Limited(candidates, i, j) == {};
    } else if candidates[j - 1] == RateLimited {
      PrefixLimited(candidates, i, j);
      assert !Explains(candidates[..j], RateQuota);
    } else {
      ShortStretch(candidates, i, j - 1);
      assert Limited(candidates, i, j) == Limited(candidates, i, j - 1);
    }
  }

  /** What is counted as staged are the documents read to a result. */
  lemma {:induction false} StagedIsRead(readings: seq<Reading>)
    ensures Staged(readings) == |set k: nat | k < |readings| && (readings[k] == Parsed || readings[k] == NoTxs)|
  {
    var places := set k: nat | k < |readings| && (readings[k] == Parsed || readings[k] == NoTxs);
    if readings == [] {
      assert places == {};
    } else {
      var last := |readings| - 1;
      StagedIsRead(readings[..last]);
      var before := set k: nat | k < last && (readings[..last][k] == Parsed || readings[..last][k] == NoTxs);
      assert places == before + if readings[last] == Parsed || readings[last] == NoTxs then {last} else {};
    }
  }

  lemma CountSnoc(readings: seq<Reading>, last: Reading, r: Reading)
    ensures Count(readings + [last], r) == Count(readings, r) + if last == r then 1 else 0
  {
    assert (readings + [last])[..|readings|] == readings;
  }

  /** Rate limits need not be consecutive: other failures between five of them do not save the batch. */
  lemma InterruptedRateLimitsStop()
    ensures StopAt([RateLimited, Failed, RateLimited, Unavailable, RateLimited, Failed, RateLimited, Failed, RateLimited])
         == RateQuota
  {
    var two := [RateLimited] + [Failed];
    var four := two + [RateLimited] + [Unavailable];
    var six := four + [RateLimited] + [Failed];
    var eight := six + [RateLimited] + [Failed];
    var all := eight + [RateLimited];
    CountSnoc([], RateLimited, RateLimited);
    assert [] + [RateLimited] == [RateLimited];
    CountSnoc([RateLimited], Failed, RateLimited);
    CountSnoc(two, RateLimited, RateLimited);
    CountSnoc(two + [RateLimited], Unavailable, RateLimited);
    CountSnoc(four, RateLimited, RateLimited);
    CountSnoc(four + [RateLimited], Failed, RateLimited);
    CountSnoc(six, RateLimited, RateLimited);
    CountSnoc(six + [RateLimited], Failed, RateLimited);
    CountSnoc(eight, RateLimited, RateLimited);
    assert all == [RateLimited, Failed, RateLimited, Unavailable, RateLimited, Failed, RateLimited, Failed, RateLimited];
    assert all[0..] == all && NoSuccess(all[0..]);
  }
}
