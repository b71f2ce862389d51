/** When the rotation worker tries to renew a lease. Everything the worker cannot control is an input:
    how late a sleep wakes up, how long an attempt takes, and how it ends. */
module LeaseTiming {
  import opened Text
  import opened Clock

  const GRACE: int := 60 * SECOND
  const RETRY: int := 15 * SECOND

  datatype Outcome =
    | RequestFailed
    | OptionsInvalid
    | ConnectFailed
    | Renewed(expiresAt: Option<int>)

  /** One turn of the loop: lateness of the sleep before the attempt (if it sleeps) and of the sleep
      after a failure, the attempt's duration, and its outcome. */
  datatype Attempt = Attempt(wakeLate: nat, duration: nat, retryLate: nat, outcome: Outcome)

  /** What a turn did: when it started, and the expiry it was working against. */
  datatype Start = Start(at: int, expiry: int, outcome: Outcome)

  function StartTime(now: int, expiry: int, wakeLate: nat): int {
    if expiry - GRACE > now then expiry - GRACE + wakeLate else now
  }

  function Finish(start: int, a: Attempt): int {
    if a.outcome.Renewed? then start + a.duration else start + a.duration + RETRY + a.retryLate
  }

  function NextExpiry(expiry: int, a: Attempt): Option<int> {
    if a.outcome.Renewed? then a.outcome.expiresAt else Some(expiry)
  }

  /** The starts of a run: the loop stops at a lease without expiry, or when the observation ends. */
  function Timeline(now: int, expiry: Option<int>, script: seq<Attempt>): (starts: seq<Start>)
    ensures |starts| <= |script|
    decreases |script|
  {
    if script == [] || expiry.None? then []
    else
      var start := StartTime(now, expiry.value, script[0].wakeLate);
      [Start(start, expiry.value, script[0].outcome)]
      + Timeline(Finish(start, script[0]), NextExpiry(expiry.value, script[0]), script[1..])
  }

  /** No attempt starts before the grace period of the lease it renews, nor before now. */
  lemma {:induction false} NeverEarly(now: int, expiry: Option<int>, script: seq<Attempt>, i: nat)
    requires i < |Timeline(now, expiry, script)|
    ensures Timeline(now, expiry, script)[i].at >= Timeline(now, expiry, script)[i].expiry - GRACE
    ensures Timeline(now, expiry, script)[i].at >= now
    decreases i
  {
    if i > 0 {
      var start := StartTime(now, expiry.value, script[0].wakeLate);
      NeverEarly(Finish(start, script[0]), NextExpiry(expiry.value, script[0]), script[1..], i - 1);
    }
  }

  // ---------- Attempts that fit into the grace period ----------

  /** The first n turns fail, within the given duration and lateness. */
  ghost predicate FailWithin(script: seq<Attempt>, n: nat, duration: nat, late: nat) {
    n <= |script|
    && forall k :: 0 <= k < n ==>
         !script[k].outcome.Renewed? && script[k].duration <= duration && script[k].retryLate <= late
  }

  function Rounds(n: nat, x: int): int {
    n * x
  }

  /** Attempt i against one lease starts at most i retry rounds after the grace period begins. */
  lemma {:induction false} StartBound(now: int, expiry: int, script: seq<Attempt>, i: nat, duration: nat, late: nat)
    requires i < |script| && FailWithin(script, i, duration, late)
    ensures |Timeline(now, Some(expiry), script)| > i
    ensures var start := Timeline(now, Some(expiry), script)[i];
            && start.expiry == expiry
            && start.at <= StartTime(now, expiry, script[0].wakeLate) + Rounds(i, RETRY + duration + late)
    decreases i
  {
    if i > 0 {
      var start := StartTime(now, expiry, script[0].wakeLate);
      var next := Finish(start, script[0]);
      assert script[1..][0] == script[1];
      forall k | 0 <= k < i - 1
        ensures !script[1..][k].outcome.Renewed? && script[1..][k].duration <= duration
        ensures script[1..][k].retryLate <= late
      {
        assert script[1..][k] == script[k + 1];
      }
      StartBound(next, expiry, script[1..], i - 1, duration, late);
      assert StartTime(next, expiry, script[1].wakeLate) == next by {
        assert start >= expiry - GRACE;
      }
      assert Rounds(i, RETRY + duration + late) == Rounds(i - 1, RETRY + duration + late) + (RETRY + duration + late);
    }
  }

  /** With more than the grace period left, attempt i starts before the lease expires whenever the
      lateness and i retry rounds fit into the grace period. */
  lemma AttemptsFit(now: int, expiry: int, script: seq<Attempt>, i: nat, duration: nat, late: nat)
    requires now <= expiry - GRACE && i < |script|
    requires FailWithin(script, i, duration, late) && script[0].wakeLate <= late
    requires late + i * (RETRY + duration + late) < GRACE
    ensures |Timeline(now, Some(expiry), script)| > i && Timeline(now, Some(expiry), script)[i].at < expiry
  {
    StartBound(now, expiry, script, i, duration, late);
  }

  function Worst(n: nat, duration: nat, late: nat): (s: seq<Attempt>)
    ensures |s| == n
  {
    seq(n, i => Attempt(late, duration, late, RequestFailed))
  }

  /** The bound is exact: the slowest attempts start exactly then. */
  lemma {:induction false} WorstCase(now: int, expiry: int, n: nat, i: nat, duration: nat, late: nat)
    requires i < n
    ensures |Timeline(now, Some(expiry), Worst(n, duration, late))| == n
    ensures Timeline(now, Some(expiry), Worst(n, duration, late))[i].at
         == StartTime(now, expiry, late) + Rounds(i, RETRY + duration + late)
    decreases n
  {
    var script := Worst(n, duration, late);
    assert script[1..] == Worst(n - 1, duration, late);
    var start := StartTime(now, expiry, late);
    var next := start + duration + RETRY + late;
    assert Finish(start, script[0]) == next && StartTime(next, expiry, late) == next;
    if n > 1 {
      WorstCase(next, expiry, n - 1, if i > 0 then i - 1 else 0, duration, late);
      if i > 0 {
        assert Rounds(i, RETRY + duration + late) == Rounds(i - 1, RETRY + duration + late) + (RETRY + duration + late);
      }
    }
  }

  /** Four instantaneous attempts fit into the grace period, and no more: attempt 4 starts at expiry. */
  lemma FourInstantAttempts(now: int, expiry: int, n: nat, i: nat)
    requires now <= expiry - GRACE && i < n
    ensures |Timeline(now, Some(expiry), Worst(n, 0, 0))| == n
    ensures Timeline(now, Some(expiry), Worst(n, 0, 0))[i].at < expiry <==> i < 4
  {
    WorstCase(now, expiry, n, i, 0, 0);
  }

  // ---------- From one turn to the next, in microseconds ----------

  /** When a turn that starts at the given time ends: a failure is followed by 15 seconds of sleep. */
  ghost predicate EndsAt(start: Start, a: Attempt, end: int) {
    end == start.at + a.duration + if a.outcome.Renewed? then 0 else 15_000_000 + a.retryLate
  }

  /** A turn works against this expiry from this moment on: it sleeps until 60 seconds before the expiry if
      that is still to come, and starts at once otherwise. */
  ghost predicate StartsFrom(start: Start, a: Attempt, now: int, expiry: int) {
    && start.expiry == expiry && start.outcome == a.outcome
    && start.at == if expiry - 60_000_000 > now then expiry - 60_000_000 + a.wakeLate else now
  }

  /** The first turn, and how long the loop goes on: until the script ends or a renewal has no expiry. */
  lemma FirstTurn(now: int, expiry: Option<int>, script: seq<Attempt>)
    ensures Timeline(now, expiry, script) == [] <==> script == [] || expiry.None?
    ensures script != [] && expiry.Some? ==> StartsFrom(Timeline(now, expiry, script)[0], script[0], now, expiry.value)
  {
  }

  lemma {:induction false} NextTurn(now: int, expiry: Option<int>, script: seq<Attempt>, i: nat)
    requires i < |Timeline(now, expiry, script)|
    ensures var starts := Timeline(now, expiry, script);
            && starts[i].outcome == script[i].outcome
            && (i + 1 < |starts| <==> i + 1 < |script| && script[i].outcome != Renewed(None))
            && (i + 1 < |starts| ==>
                  var e := if script[i].outcome.Renewed? then script[i].outcome.expiresAt.value else starts[i].expiry;
                  exists end :: EndsAt(starts[i], script[i], end) && StartsFrom(starts[i + 1], script[i + 1], end, e))
    decreases i
  {
    var start := StartTime(now, expiry.value, script[0].wakeLate);
    var end, e := Finish(start, script[0]), NextExpiry(expiry.value, script[0]);
    if i == 0 {
      FirstTurn(end, e, script[1..]);
      assert EndsAt(Timeline(now, expiry, script)[0], script[0], end);
    } else {
      NextTurn(end, e, script[1..], i - 1);
      assert script[1..][i - 1] == script[i] && (i + 1 < |script| ==> script[1..][i] == script[i + 1]);
    }
  }

  /** After a renewal the loop acts on the new lease no later than its grace period begins, or at once. */
  lemma ActsInTime(now: int, expiry: Option<int>, script: seq<Attempt>, i: nat, e: int)
    requires i + 1 < |Timeline(now, expiry, script)| && script[i].outcome == Renewed(Some(e))
    ensures var starts := Timeline(now, expiry, script);
            var grace, end := e - 60_000_000 + script[i + 1].wakeLate, starts[i].at + script[i].duration;
            starts[i + 1].at <= if end > grace then end else grace
  {
    NextTurn(now, expiry, script, i);
  }

  /** The rest of a run after turn i is a run of its own. */
  lemma {:induction false} RestOfRun(now: int, expiry: Option<int>, script: seq<Attempt>, i: nat)
    requires i < |Timeline(now, expiry, script)| && script[i].outcome.Renewed?
    ensures var starts := Timeline(now, expiry, script);
            starts[i + 1..] == Timeline(starts[i].at + script[i].duration, script[i].outcome.expiresAt, script[i + 1..])
    decreases i
  {
    var start := StartTime(now, expiry.value, script[0].wakeLate);
    var end, e := Finish(start, script[0]), NextExpiry(expiry.value, script[0]);
    var starts, rest := Timeline(now, expiry, script), Timeline(end, e, script[1..]);
    assert starts[1..] == rest;
    if i > 0 {
      RestOfRun(end, e, script[1..], i - 1);
      assert script[1..][i..] == script[i + 1..] && script[1..][i - 1] == script[i];
      assert starts[i + 1..] == rest[i..] && starts[i] == rest[i - 1];
    }
  }

  /** Every lease of a run: if 60 seconds are left when its renewal ends, its attempt k starts before it
      expires whenever the lateness and k retry rounds fit into 60 seconds. */
  lemma AttemptsFitEveryLease(now: int, expiry: Option<int>, script: seq<Attempt>, i: nat, k: nat,
                                duration: nat, late: nat)
    requires i < |Timeline(now, expiry, script)| && i + 1 + k < |script|
    requires script[i].outcome.Renewed? && script[i].outcome.expiresAt.Some?
    requires var end := Timeline(now, expiry, script)[i].at + script[i].duration;
             end <= script[i].outcome.expiresAt.value - 60_000_000
    requires script[i + 1].wakeLate <= late && FailWithin(script[i + 1..], k, duration, late)
    requires late + k * (15_000_000 + duration + late) < 60_000_000
    ensures var starts := Timeline(now, expiry, script);
            i + 1 + k < |starts| && starts[i + 1 + k].at < script[i].outcome.expiresAt.value
  {
    var starts := Timeline(now, expiry, script);
    RestOfRun(now, expiry, script, i);
    var end, e := starts[i].at + script[i].duration, script[i].outcome.expiresAt.value;
    AttemptsFit(end, e, script[i + 1..], k, duration, late);
    assert starts[i + 1 + k] == starts[i + 1..][k];
  }

  // ---------- How often a lease is renewed ----------

  /** Every renewal yields a lease that lasts at least the given time from the start of its attempt. */
  ghost predicate LeasesLast(starts: seq<Start>, lifetime: int) {
    forall k :: 0 <= k < |starts| && starts[k].outcome.Renewed? && starts[k].outcome.expiresAt.Some?
      ==> starts[k].outcome.expiresAt.value >= starts[k].at + lifetime
  }

  /** How many renewals are among the first i turns. */
  function Renewals(starts: seq<Start>, i: nat): nat
    requires i <= |starts|
  {
    if i == 0 then 0 else Renewals(starts, i - 1) + if starts[i - 1].outcome.Renewed? then 1 else 0
  }

  lemma {:induction false} RenewalsShift(starts: seq<Start>, i: nat)
    requires 0 < i <= |starts|
    ensures Renewals(starts, i) == Renewals(starts[1..], i - 1) + if starts[0].outcome.Renewed? then 1 else 0
  {
    if i > 1 {
      RenewalsShift(starts, i - 1);
    }
  }

  /** A renewal moves the next start by its lifetime less the grace period; any turn moves it forward. */
  lemma NextStart(now: int, expiry: Option<int>, script: seq<Attempt>, lifetime: int)
    requires |Timeline(now, expiry, script)| > 1 && LeasesLast(Timeline(now, expiry, script), lifetime)
    ensures var starts := Timeline(now, expiry, script);
            starts[1].at >= starts[0].at + if starts[0].outcome.Renewed? then lifetime - GRACE else 0
  {
    var starts := Timeline(now, expiry, script);
    var start := StartTime(now, expiry.value, script[0].wakeLate);
    var next, after := Finish(start, script[0]), NextExpiry(expiry.value, script[0]);
    assert starts[1] == Timeline(next, after, script[1..])[0];
    NeverEarly(next, after, script[1..], 0);
  }

  /** When attempt i starts, every earlier renewal has used up at least its lifetime less the grace
      period: so the number of renewals in any span of time is bounded. */
  lemma {:induction false} RenewalsAreRare(now: int, expiry: Option<int>, script: seq<Attempt>, i: nat, lifetime: int)
    requires i < |Timeline(now, expiry, script)| && lifetime > GRACE
    requires LeasesLast(Timeline(now, expiry, script), lifetime)
    ensures Timeline(now, expiry, script)[i].at
         >= Timeline(now, expiry, script)[0].at + Rounds(Renewals(Timeline(now, expiry, script), i), lifetime - GRACE)
    decreases i
  {
    var starts := Timeline(now, expiry, script);
    if i > 0 {
      NextStart(now, expiry, script, lifetime);
      var start := StartTime(now, expiry.value, script[0].wakeLate);
      var next, after := Finish(start, script[0]), NextExpiry(expiry.value, script[0]);
      var rest := Timeline(next, after, script[1..]);
      assert starts[1..] == rest && starts[i] == rest[i - 1];
      LastingRest(starts, lifetime);
      RenewalsAreRare(next, after, script[1..], i - 1, lifetime);
      RenewalsShift(starts, i);
      OneMore(Renewals(rest, i - 1), lifetime - GRACE);
    }
  }

  lemma OneMore(n: nat, x: int)
    ensures Rounds(n + 1, x) == Rounds(n, x) + x
  {
  }

  lemma LastingRest(starts: seq<Start>, lifetime: int)
    requires starts != [] && LeasesLast(starts, lifetime)
    ensures LeasesLast(starts[1..], lifetime)
  {
    assert forall k :: 0 <= k < |starts[1..]| ==> starts[1..][k] == starts[k + 1];
  }

  /** Two renewals with only failures between them. */
  lemma RenewalsApart(now: int, expiry: Option<int>, script: seq<Attempt>, i: nat, j: nat, lifetime: int)
    requires i < j < |Timeline(now, expiry, script)| && lifetime > GRACE
    requires LeasesLast(Timeline(now, expiry, script), lifetime)
    requires Timeline(now, expiry, script)[i].outcome.Renewed?
    ensures Timeline(now, expiry, script)[j].at >= Timeline(now, expiry, script)[i].at + lifetime - GRACE
    decreases i
  {
    var starts := Timeline(now, expiry, script);
    var start := StartTime(now, expiry.value, script[0].wakeLate);
    var next, after := Finish(start, script[0]), NextExpiry(expiry.value, script[0]);
    var rest := Timeline(next, after, script[1..]);
    assert starts[1..] == rest && starts[j] == rest[j - 1];
    if i == 0 {
      RenewalsAreRare(now, expiry, script, j, lifetime);
      RenewalsAtLeastOne(starts, j);
      RoundsGrow(Renewals(starts, j), lifetime - GRACE);
    } else {
      LastingRest(starts, lifetime);
      RenewalsApart(next, after, script[1..], i - 1, j - 1, lifetime);
    }
  }

  lemma {:induction false} RenewalsAtLeastOne(starts: seq<Start>, j: nat)
    requires 0 < j <= |starts| && starts[0].outcome.Renewed?
    ensures Renewals(starts, j) >= 1
  {
    if j > 1 {
      RenewalsAtLeastOne(starts, j - 1);
    }
  }

  lemma RoundsGrow(n: nat, x: int)
    requires n >= 1 && x >= 0
    ensures Rounds(n, x) >= x
  {
    assert n * x >= 1 * x;
  }
}
