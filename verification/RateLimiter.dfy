/** The per-repository token bucket, over exact reals and a clock given by the caller. */
module RateLimiter {
  import opened Prelude

  // ---------------------------------------------------------------- one decision

  datatype Level = Level(tokens: real, last: real)

  function MinReal(a: real, b: real): real {
    if a < b then a else b
  }

  /** The decision on a call at time `now`, and the bucket it leaves. */
  function Decide(rate: real, burst: real, bucket: Option<Level>, now: real): (bool, Level) {
    match bucket
    case None => (true, Level(burst - 1.0, now))
    case Some(b) =>
      var t := MinReal(burst, b.tokens + Earn(rate, now - b.last));
      if t < 1.0 then (false, Level(t, now)) else (true, Level(t - 1.0, now))
  }

  // ---------------------------------------------------------------- the limiter

  class Bucket {
    var tokens: real
    var last: real

    constructor (tokens: real, last: real)
      ensures this.tokens == tokens && this.last == last
    {
      this.tokens, this.last := tokens, last;
    }
  }

  class RepoRateLimiter {
    const rate: real
    const burst: real
    var state: map<string, Bucket>

    constructor (rate: real, burst: real)
      ensures this.rate == rate && this.burst == burst && Valid() && View() == map[]
    {
      this.rate, this.burst, state := rate, burst, map[];
    }

    /** Repositories do not share buckets. */
    ghost predicate Valid()
      reads this
    {
      forall r, s :: r in state && s in state && state[r] == state[s] ==> r == s
    }

    ghost function View(): map<string, Level>
      reads this, state.Values
    {
      map r | r in state :: Level(state[r].tokens, state[r].last)
    }

    ghost function LevelOf(repo: string): Option<Level>
      reads this, state.Values
    {
      if repo in state then Some(Level(state[repo].tokens, state[repo].last)) else None
    }

    method Allow(repo: string, now: real) returns (ok: bool)
      requires Valid()
      modifies this`state, state.Values
      ensures Valid() && fresh(state.Values - old(state.Values))
      ensures ok == Decide(rate, burst, old(LevelOf(repo)), now).0
      ensures View() == old(View())[repo := Decide(rate, burst, old(LevelOf(repo)), now).1]
    {
      if repo !in state {
        var fullBucket := new Bucket(burst - 1.0, now);
        state := state[repo := fullBucket];
        return true;
      }
      var b := state[repo];
      assert forall r :: r in state && r != repo ==> state[r] != b;
      var elapsed := now - b.last;
      b.tokens := MinReal(burst, b.tokens + Earn(rate, elapsed));
      b.last := now;
      if b.tokens < 1.0 {
        return false;
      }
      b.tokens := b.tokens - 1.0;
      return true;
    }
  }

  // ---------------------------------------------------------------- runs

  /** What the rate earns over a length of time. */
  function Earn(rate: real, dt: real): real {
    dt * rate
  }

  /** The rate earns so many tokens in each unit of time. */
  lemma EarnIsRate(rate: real, dt: real)
    ensures Earn(rate, dt) == rate * dt
  {
  }

  lemma EarnSplits(rate: real, a: real, b: real)
    ensures Earn(rate, a - b) == Earn(rate, a) - Earn(rate, b)
  {
  }

  lemma EarnMonotone(rate: real, a: real, b: real)
    requires rate >= 0.0 && a <= b
    ensures Earn(rate, a) <= Earn(rate, b)
  {
  }

  lemma EarnNothing(rate: real)
    ensures Earn(rate, 0.0) == 0.0
  {
  }

  /** The clock in tokens: what the rate has earned by each call. */
  function Earned(rate: real, times: seq<real>): seq<real> {
    seq(|times|, i requires 0 <= i < |times| => Earn(rate, times[i]))
  }

  /** Tokens left after the first `n` calls. */
  function Left(burst: real, us: seq<real>, n: nat): real
    requires 1 <= n <= |us|
    decreases n, 0
  {
    if n == 1 then burst - 1.0
    else
      var r := Refilled(burst, us, n - 1);
      if r < 1.0 then r else r - 1.0
  }

  /** What the bucket holds once refilled for call `n`. */
  function Refilled(burst: real, us: seq<real>, n: nat): real
    requires 1 <= n < |us|
    decreases n, 1
  {
    MinReal(burst, Left(burst, us, n) + (us[n] - us[n - 1]))
  }

  predicate Passes(burst: real, us: seq<real>, n: nat)
    requires n < |us|
  {
    n == 0 || Refilled(burst, us, n) >= 1.0
  }

  function Count(burst: real, us: seq<real>, i: nat, j: nat): nat
    requires i <= j <= |us|
  {
    if i == j then 0 else Count(burst, us, i, j - 1) + if Passes(burst, us, j - 1) then 1 else 0
  }

  /** The bucket after calls at the given times. */
  function After(rate: real, burst: real, times: seq<real>): Option<Level> {
    if |times| == 0 then None
    else Some(Level(Left(burst, Earned(rate, times), |times|), times[|times| - 1]))
  }

  /** Was call number `n` allowed? */
  predicate Allowed(rate: real, burst: real, times: seq<real>, n: nat)
    requires n < |times|
  {
    Passes(burst, Earned(rate, times), n)
  }

  /** How many of the calls from number `i` up to, not including, number `j` were allowed. */
  function Admitted(rate: real, burst: real, times: seq<real>, i: nat, j: nat): nat
    requires i <= j <= |times|
  {
    Count(burst, Earned(rate, times), i, j)
  }

  ghost predicate NonDecreasing(times: seq<real>) {
    forall i, j :: 0 <= i <= j < |times| ==> times[i] <= times[j]
  }

  lemma {:induction false} LeftOfPrefix(burst: real, us: seq<real>, more: seq<real>, n: nat)
    requires 1 <= n <= |us|
    ensures Left(burst, us + more, n) == Left(burst, us, n)
  {
    if n > 1 {
      LeftOfPrefix(burst, us, more, n - 1);
    }
  }

  /** A run is nothing but the limiter's decisions, one after the other. */
  lemma RunIsDecided(rate: real, burst: real, times: seq<real>, now: real)
    ensures var step := Decide(rate, burst, After(rate, burst, times), now);
            && After(rate, burst, times + [now]) == Some(step.1)
            && (Allowed(rate, burst, times + [now], |times|) <==> step.0)
  {
    var us := Earned(rate, times);
    assert Earned(rate, times + [now]) == us + [Earn(rate, now)];
    var n := |times|;
    if n > 0 {
      LeftOfPrefix(burst, us, [Earn(rate, now)], n);
      EarnSplits(rate, now, times[n - 1]);
      assert Refilled(burst, us + [Earn(rate, now)], n)
             == MinReal(burst, Left(burst, us, n) + Earn(rate, now - times[n - 1]));
    }
    assert Left(burst, us + [Earn(rate, now)], n + 1) == Decide(rate, burst, After(rate, burst, times), now).1.tokens;
  }

  lemma EarnedNonDecreasing(rate: real, times: seq<real>)
    requires rate >= 0.0 && NonDecreasing(times)
    ensures NonDecreasing(Earned(rate, times))
  {
    forall i, j | 0 <= i <= j < |times| ensures Earned(rate, times)[i] <= Earned(rate, times)[j] {
      EarnMonotone(rate, times[i], times[j]);
    }
  }

  // ---------------------------------------------------------------- least slack

  /** What a window from call `i` to the moment `u` still has to give after `n` calls. */
  function Slack(burst: real, us: seq<real>, i: nat, n: nat, u: real): real
    requires i <= n <= |us| && i < |us|
  {
    burst + (u - us[i]) - Count(burst, us, i, n) as real
  }

  /** `x` is the least slack of the windows that start at one of the first `m` calls. */
  ghost predicate IsLeastSlack(burst: real, us: seq<real>, m: nat, n: nat, u: real, x: real)
    requires n <= |us| && m <= n + 1 && m <= |us|
  {
    && (forall i :: 0 <= i < m ==> x <= Slack(burst, us, i, n, u))
    && (exists i :: 0 <= i < m && x == Slack(burst, us, i, n, u))
  }

  /** The bucket always holds the least slack of all the windows opened so far. */
  lemma {:induction false} LeftIsLeastSlack(burst: real, us: seq<real>, n: nat)
    requires 1 <= n <= |us|
    ensures IsLeastSlack(burst, us, n, n, us[n - 1], Left(burst, us, n))
    decreases n, 0
  {
    if n == 1 {
      assert Count(burst, us, 0, 0) == 0;
      assert Slack(burst, us, 0, 1, us[0]) == burst - 1.0;
    } else {
      RefilledIsLeastSlack(burst, us, n - 1);
      var i :| 0 <= i < n && Refilled(burst, us, n - 1) == Slack(burst, us, i, n - 1, us[n - 1]);
      assert Left(burst, us, n) == Slack(burst, us, i, n, us[n - 1]);
      var left, u := Left(burst, us, n), us[n - 1];
      forall i | 0 <= i < n ensures left <= Slack(burst, us, i, n, u) {
        assert Refilled(burst, us, n - 1) <= Slack(burst, us, i, n - 1, us[n - 1]);
      }
    }
  }

  lemma {:induction false} RefilledIsLeastSlack(burst: real, us: seq<real>, n: nat)
    requires 1 <= n < |us|
    ensures IsLeastSlack(burst, us, n + 1, n, us[n], Refilled(burst, us, n))
    decreases n, 1
  {
    LeftIsLeastSlack(burst, us, n);
    assert Slack(burst, us, n, n, us[n]) == burst;
    var i :| 0 <= i < n && Left(burst, us, n) == Slack(burst, us, i, n, us[n - 1]);
    assert Slack(burst, us, i, n, us[n]) == Left(burst, us, n) + (us[n] - us[n - 1]);
    forall i | 0 <= i < n ensures Refilled(burst, us, n) <= Slack(burst, us, i, n, us[n]) {
      assert Left(burst, us, n) <= Slack(burst, us, i, n, us[n - 1]);
    }
  }

  lemma PassesIffWindowsHold(burst: real, us: seq<real>, n: nat)
    requires burst >= 1.0 && n < |us|
    ensures Passes(burst, us, n) <==>
            forall i :: 0 <= i <= n ==> 1.0 + Count(burst, us, i, n) as real <= burst + (us[n] - us[i])
  {
    if n > 0 {
      RefilledIsLeastSlack(burst, us, n);
      forall i | 0 <= i <= n
        ensures 1.0 + Count(burst, us, i, n) as real <= burst + (us[n] - us[i]) <==> Slack(burst, us, i, n, us[n]) >= 1.0
      {
      }
    }
  }

  /** The exact rule: a call is allowed if and only if no window ending with it would then hold more
      than `burst` calls plus `rate` for each second it lasts. */
  lemma AllowedIffAllWindowsHold(rate: real, burst: real, times: seq<real>, n: nat)
    requires burst >= 1.0 && n < |times|
    ensures Allowed(rate, burst, times, n) <==>
            forall i :: 0 <= i <= n ==>
              1.0 + Admitted(rate, burst, times, i, n) as real <= burst + rate * (times[n] - times[i])
  {
    PassesIffWindowsHold(burst, Earned(rate, times), n);
    forall i | 0 <= i <= n
      ensures rate * (times[n] - times[i]) == Earned(rate, times)[n] - Earned(rate, times)[i]
    {
      EarnIsRate(rate, times[n] - times[i]);
      EarnSplits(rate, times[n], times[i]);
    }
  }

  // ---------------------------------------------------------------- the bound

  lemma {:induction false} CountBound(burst: real, us: seq<real>, i: nat, j: nat)
    requires burst >= 1.0 && NonDecreasing(us) && i <= j < |us|
    ensures Count(burst, us, i, j + 1) as real <= burst + (us[j] - us[i])
    decreases j
  {
    if Passes(burst, us, j) {
      PassesIffWindowsHold(burst, us, j);
      assert 1.0 + Count(burst, us, i, j) as real <= burst + (us[j] - us[i]);
    } else if i < j {
      CountBound(burst, us, i, j - 1);
    } else {
      assert Count(burst, us, i, i) == 0;
    }
  }

  /** Between any two calls of a run, both included, at most `burst + rate * elapsed` are allowed. */
  lemma WindowBound(rate: real, burst: real, times: seq<real>, i: nat, j: nat)
    requires burst >= 1.0 && rate >= 0.0 && NonDecreasing(times) && i <= j < |times|
    ensures Admitted(rate, burst, times, i, j + 1) as real <= burst + Earn(rate, times[j] - times[i])
  {
    EarnedNonDecreasing(rate, times);
    CountBound(burst, Earned(rate, times), i, j);
    EarnSplits(rate, times[j], times[i]);
  }

  /** Allowed calls of the run whose time falls within [t0, t1], counted over the first `n` calls. */
  function AllowedWithin(rate: real, burst: real, times: seq<real>, n: nat, t0: real, t1: real): nat
    requires n <= |times|
  {
    if n == 0 then 0
    else AllowedWithin(rate, burst, times, n - 1, t0, t1)
         + if t0 <= times[n - 1] <= t1 && Allowed(rate, burst, times, n - 1) then 1 else 0
  }

  lemma {:induction false} WithinIsAdmitted(rate: real, burst: real, times: seq<real>, i: nat, n: nat, t0: real, t1: real)
    requires i <= n <= |times|
    requires forall k :: 0 <= k < i ==> times[k] < t0
    requires forall k :: i <= k < n ==> t0 <= times[k] <= t1
    ensures AllowedWithin(rate, burst, times, n, t0, t1) == Admitted(rate, burst, times, i, n)
    decreases n, i
  {
    if i < n {
      WithinIsAdmitted(rate, burst, times, i, n - 1, t0, t1);
    } else if n > 0 {
      WithinIsAdmitted(rate, burst, times, i - 1, n - 1, t0, t1);
    }
  }

  lemma {:induction false} IntervalEarns(rate: real, burst: real, times: seq<real>, n: nat, t0: real, t1: real)
    requires burst >= 1.0 && rate >= 0.0 && NonDecreasing(times) && n <= |times| && t0 <= t1
    ensures AllowedWithin(rate, burst, times, n, t0, t1) as real <= burst + Earn(rate, t1 - t0)
    decreases n
  {
    if n == 0 {
      EarnNothing(rate);
      EarnMonotone(rate, 0.0, t1 - t0);
    } else if t0 <= times[n - 1] <= t1 {
      var i := FirstAtOrAfter(times, n - 1, t0);
      WithinIsAdmitted(rate, burst, times, i, n, t0, t1);
      WindowBound(rate, burst, times, i, n - 1);
      EarnMonotone(rate, times[n - 1] - times[i], t1 - t0);
    } else {
      IntervalEarns(rate, burst, times, n - 1, t0, t1);
    }
  }

  /** In any interval of time, whatever the calls, at most `burst + rate * length` are allowed. */
  lemma IntervalBound(rate: real, burst: real, times: seq<real>, n: nat, t0: real, t1: real)
    requires burst >= 1.0 && rate >= 0.0 && NonDecreasing(times) && n <= |times| && t0 <= t1
    ensures AllowedWithin(rate, burst, times, n, t0, t1) as real <= burst + rate * (t1 - t0)
  {
    IntervalEarns(rate, burst, times, n, t0, t1);
    EarnIsRate(rate, t1 - t0);
  }

  lemma FirstAtOrAfter(times: seq<real>, j: nat, t0: real) returns (i: nat)
    requires j < |times| && NonDecreasing(times) && t0 <= times[j]
    ensures i <= j && t0 <= times[i] && forall k :: 0 <= k < i ==> times[k] < t0
  {
    i := j;
    while i > 0 && t0 <= times[i - 1]
      invariant i <= j && t0 <= times[i]
    {
      i := i - 1;
    }
  }

  // ---------------------------------------------------------------- levels and spacing

  lemma {:induction false} LeftInRange(burst: real, us: seq<real>, n: nat)
    requires burst >= 1.0 && NonDecreasing(us) && 1 <= n <= |us|
    ensures 0.0 <= Left(burst, us, n) <= burst
  {
    if n > 1 {
      LeftInRange(burst, us, n - 1);
    }
  }

  lemma TokensStayInRange(rate: real, burst: real, times: seq<real>)
    requires burst >= 1.0 && rate >= 0.0 && NonDecreasing(times) && |times| > 0
    ensures 0.0 <= After(rate, burst, times).value.tokens <= burst
  {
    EarnedNonDecreasing(rate, times);
    LeftInRange(burst, Earned(rate, times), |times|);
  }

  /** A burst of at least one call is exactly what it takes for the level to stay in range and for the
      bound to hold: with less, the very first call, always let through, overdraws the bucket. */
  lemma SoundIffBurstAtLeastOne(rate: real, burst: real)
    requires rate >= 0.0
    ensures burst >= 1.0 <==>
            forall times :: NonDecreasing(times) && |times| > 0 ==> 0.0 <= After(rate, burst, times).value.tokens <= burst
    ensures burst >= 1.0 <==>
            forall times, n: nat, t0, t1 :: NonDecreasing(times) && n <= |times| && t0 <= t1 ==>
              AllowedWithin(rate, burst, times, n, t0, t1) as real <= burst + rate * (t1 - t0)
  {
    if burst >= 1.0 {
      forall times | NonDecreasing(times) && |times| > 0 ensures 0.0 <= After(rate, burst, times).value.tokens <= burst {
        TokensStayInRange(rate, burst, times);
      }
      forall times, n: nat, t0, t1 | NonDecreasing(times) && n <= |times| && t0 <= t1
        ensures AllowedWithin(rate, burst, times, n, t0, t1) as real <= burst + rate * (t1 - t0)
      {
        IntervalBound(rate, burst, times, n, t0, t1);
      }
    } else {
      var times := [0.0];
      assert NonDecreasing(times);
      assert After(rate, burst, times).value.tokens < 0.0;
      assert AllowedWithin(rate, burst, times, 0, 0.0, 0.0) == 0;
      assert AllowedWithin(rate, burst, times, 1, 0.0, 0.0) == 1;
      EarnNothing(rate);
      EarnIsRate(rate, 0.0 - 0.0);
    }
  }

  /** Calls spaced so that the rate earns one token in between are always allowed. */
  lemma SpacedCallsAllowed(rate: real, burst: real, times: seq<real>, n: nat)
    requires burst >= 1.0 && rate >= 0.0 && NonDecreasing(times) && n < |times|
    requires forall k :: 0 < k <= n ==> rate * (times[k] - times[k - 1]) >= 1.0
    ensures Allowed(rate, burst, times, n)
  {
    if n > 0 {
      EarnedNonDecreasing(rate, times);
      LeftInRange(burst, Earned(rate, times), n);
      EarnIsRate(rate, times[n] - times[n - 1]);
      EarnSplits(rate, times[n], times[n - 1]);
    }
  }

  // ---------------------------------------------------------------- isolation

  datatype Call = Call(repo: string, at: real)

  /** All buckets after a run of calls to any repositories. */
  function Levels(rate: real, burst: real, calls: seq<Call>): map<string, Level> {
    if |calls| == 0 then map[]
    else
      var before := Levels(rate, burst, calls[..|calls| - 1]);
      var c := calls[|calls| - 1];
      var b := if c.repo in before then Some(before[c.repo]) else None;
      before[c.repo := Decide(rate, burst, b, c.at).1]
  }

  /** The times of the calls to one repository. */
  function TimesOf(calls: seq<Call>, repo: string): seq<real> {
    if |calls| == 0 then []
    else
      var c := calls[|calls| - 1];
      TimesOf(calls[..|calls| - 1], repo) + if c.repo == repo then [c.at] else []
  }

  /** A repository's bucket is what its own calls alone would have made it. */
  lemma {:induction false} RepositoriesAreIsolated(rate: real, burst: real, calls: seq<Call>, repo: string)
    ensures After(rate, burst, TimesOf(calls, repo)) ==
            var levels := Levels(rate, burst, calls); if repo in levels then Some(levels[repo]) else None
  {
    if |calls| > 0 {
      var before, c := calls[..|calls| - 1], calls[|calls| - 1];
      RepositoriesAreIsolated(rate, burst, before, repo);
      if c.repo == repo {
        RunIsDecided(rate, burst, TimesOf(before, repo), c.at);
      } else {
        assert TimesOf(calls, repo) == TimesOf(before, repo);
      }
    }
  }
}
