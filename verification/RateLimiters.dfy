/** The rate limiter: a caller is told how long to wait until its permit, and the next permit is
    pushed back by the cost of this one. Times are in microseconds. */
module RateLimiters {
  import opened Common

  /** One call of claim_next: its clock reading, and the time its permits cost. */
  datatype Claim = Claim(now: nat, cost: nat)

  /** The time permits cost at one permit per interval, cut to whole microseconds. */
  function TimeCost(permits: real, interval: real): nat
    requires permits >= 0.0 && interval >= 0.0
  {
    CostsTime(permits, interval);
    (permits * interval).Floor
  }

  lemma CostsTime(permits: real, interval: real)
    requires permits >= 0.0 && interval >= 0.0
    ensures permits * interval >= 0.0
  {
  }

  /** When permits are free again after the claims. */
  function NextFree(claims: seq<Claim>): nat {
    if claims == [] then 0 else
    var c := claims[|claims| - 1];
    Max(c.now, NextFree(claims[..|claims| - 1])) + c.cost
  }

  /** When the n-th claim's permits are released. */
  function Release(claims: seq<Claim>, n: nat): nat
    requires n < |claims|
  {
    Max(claims[n].now, NextFree(claims[..n]))
  }

  /** The cost of claims j to n - 1. */
  function Cost(claims: seq<Claim>, j: nat, n: nat): nat
    requires j <= n <= |claims|
  {
    if j == n then 0 else Cost(claims, j, n - 1) + claims[n - 1].cost
  }

  class RateLimiter {
    var interval: real
    var maxPermits: real
    var storedPermits: real
    var nextFree: nat
    ghost var claims: seq<Claim>

    /** No permit is ever stored. */
    ghost predicate Valid()
      reads this
    {
      && interval >= 0.0 && maxPermits == storedPermits == 0.0
      && nextFree == NextFree(claims)
    }

    constructor ()
      ensures Valid() && interval == 0.0 && claims == []
    {
      interval, maxPermits, storedPermits, nextFree, claims := 0.0, 0.0, 0.0, 0, [];
    }

    method SetRate(rate: real) returns (r: Result<()>)
      requires Valid()
      modifies this`interval
      ensures Valid()
      ensures rate <= 0.0 ==> r.Err? && interval == old(interval)
      ensures rate > 0.0 ==> r.Ok? && interval * rate == 1000000.0
    {
      if rate <= 0.0 {
        return Err("RateLimiter: Rate must be greater than 0");
      }
      interval := 1000000.0 / rate;
      return Ok(());
    }

    /** Idle time would become stored permits, up to the maximum; a quotient by a zero interval is
        infinite, so the minimum is the maximum. */
    method Sync(now: nat)
      requires Valid()
      modifies this`storedPermits, this`nextFree
      ensures storedPermits == 0.0 && nextFree == Max(now, old(nextFree))
    {
      if now > nextFree {
        if interval == 0.0 {
          storedPermits := maxPermits;
        } else {
          var more := storedPermits + (now - nextFree) as real / interval;
          IdleEarns((now - nextFree) as real, interval);
          storedPermits := if more < maxPermits then more else maxPermits;
        }
        nextFree := now;
      }
    }

    /** claim_next: the caller waits until its release time, and never a negative time. */
    method ClaimNext(permits: real, now: nat) returns (wait: nat)
      requires Valid() && permits >= 0.0
      modifies this`storedPermits, this`nextFree, this`claims
      ensures Valid()
      ensures claims == old(claims) + [Claim(now, TimeCost(permits, interval))]
      ensures now + wait == Release(claims, |claims| - 1)
    {
      Sync(now);
      wait := nextFree - now;
      var stored := if permits < storedPermits then permits else storedPermits;
      var newOnes := permits - stored;
      var cost := TimeCost(newOnes, interval);
      nextFree := nextFree + cost;
      storedPermits := storedPermits - stored;
      claims := claims + [Claim(now, cost)];
      assert claims[..|claims| - 1] == old(claims);
    }

    /** acquire: one permit; the sleep is reported in whole milliseconds. */
    method Acquire(now: nat) returns (slept: nat)
      requires Valid()
      modifies this`storedPermits, this`nextFree, this`claims
      ensures Valid()
      ensures claims == old(claims) + [Claim(now, TimeCost(1.0, interval))]
      ensures slept == (Release(claims, |claims| - 1) - now) / 1000
    {
      var wait := ClaimNext(1.0, now);
      slept := wait / 1000;
    }
  }

  lemma IdleEarns(idle: real, interval: real)
    requires idle > 0.0 && interval > 0.0
    ensures idle / interval > 0.0
  {
    assert (idle / interval) * interval == idle;
  }

  /** The time between permits is cut to whole microseconds, so the limiter is never slower than the
      rate asked for and, above 1000000 a second, does not limit at all. */
  lemma PermitCost(permits: real, rate: real, interval: real)
    requires permits >= 0.0 && rate > 0.0 && interval >= 0.0 && interval * rate == 1000000.0
    ensures TimeCost(permits, interval) as real * rate <= permits * 1000000.0 < (TimeCost(permits, interval) + 1) as real * rate
    ensures TimeCost(1.0, interval) == 0 <==> rate > 1000000.0
  {
    CostWithin(permits, rate, interval, 1000000.0);
    FreeExactly(rate, interval);
  }

  lemma CostWithin(permits: real, rate: real, interval: real, second: real)
    requires permits >= 0.0 && rate > 0.0 && interval >= 0.0 && interval * rate == second
    ensures TimeCost(permits, interval) as real * rate <= permits * second < (TimeCost(permits, interval) + 1) as real * rate
  {
    CostsTime(permits, interval);
    var time, cost := permits * interval, TimeCost(permits, interval);
    assert cost as real <= time < cost as real + 1.0;
    Regroup(permits, interval, rate);
    CostBounds(rate, time, cost, permits * second);
  }

  lemma Regroup(a: real, b: real, c: real)
    ensures (a * b) * c == a * (b * c)
  {
  }

  lemma FreeExactly(rate: real, interval: real)
    requires rate > 0.0 && interval >= 0.0 && interval * rate == 1000000.0
    ensures TimeCost(1.0, interval) == 0 <==> rate > 1000000.0
  {
    CostOfOne(interval);
    LessThanOne(rate, interval);
  }

  lemma CostOfOne(interval: real)
    requires interval >= 0.0
    ensures TimeCost(1.0, interval) as real <= interval < TimeCost(1.0, interval) as real + 1.0
    ensures TimeCost(1.0, interval) == 0 <==> interval < 1.0
  {
    assert 1.0 * interval == interval;
  }

  lemma CostBounds(rate: real, interval: real, cost: nat, product: real)
    requires cost as real <= interval < cost as real + 1.0
    requires rate > 0.0 && interval * rate == product
    ensures cost as real * rate <= product < (cost + 1) as real * rate
  {
    Between(cost as real, interval, (cost + 1) as real, rate, product);
  }

  lemma Between(low: real, x: real, high: real, rate: real, product: real)
    requires low <= x < high && rate > 0.0 && x * rate == product
    ensures low * rate <= product < high * rate
  {
    Scale(low, x, rate);
    ScaleStrictly(x, high, rate);
  }

  lemma LessThanOne(rate: real, interval: real)
    requires rate > 0.0 && interval >= 0.0 && interval * rate == 1000000.0
    ensures interval < 1.0 <==> rate > 1000000.0
  {
    if interval < 1.0 {
      ScaleStrictly(interval, 1.0, rate);
    } else {
      Scale(1.0, interval, rate);
    }
  }

  lemma Scale(a: real, b: real, c: real)
    requires a <= b && c > 0.0
    ensures a * c <= b * c
  {
  }

  lemma ScaleStrictly(a: real, b: real, c: real)
    requires a < b && c > 0.0
    ensures a * c < b * c
  {
  }

  // The closed form.

  lemma {:induction false} CostOfPrefix(claims: seq<Claim>, j: nat, n: nat, m: nat)
    requires j <= n <= m <= |claims|
    ensures Cost(claims[..m], j, n) == Cost(claims, j, n)
  {
    if j == n {
    } else {
      CostOfPrefix(claims, j, n - 1, m);
    }
  }

  lemma {:induction false} Backlog(claims: seq<Claim>)
    requires claims != []
    ensures forall j :: 0 <= j < |claims| ==> NextFree(claims) >= claims[j].now + Cost(claims, j, |claims|)
    ensures exists j :: 0 <= j < |claims| && NextFree(claims) == claims[j].now + Cost(claims, j, |claims|)
  {
    var n := |claims| - 1;
    var before := claims[..n];
    assert Cost(claims, n, n + 1) == claims[n].cost;
    if before == [] {
      assert NextFree(claims) == claims[0].now + Cost(claims, 0, 1);
    } else {
      Backlog(before);
      forall j | 0 <= j < |claims| ensures NextFree(claims) >= claims[j].now + Cost(claims, j, |claims|) {
        if j < n {
          CostOfPrefix(claims, j, n, n);
        }
      }
      var j :| 0 <= j < n && NextFree(before) == before[j].now + Cost(before, j, n);
      CostOfPrefix(claims, j, n, n);
      var latest := if claims[n].now >= NextFree(before) then n else j;
      assert NextFree(claims) == claims[latest].now + Cost(claims, latest, n + 1);
    }
  }

  /** The n-th release is the latest of: some claim up to it, delayed by all costs from there on. */
  lemma ReleaseClosedForm(claims: seq<Claim>, n: nat)
    requires n < |claims|
    ensures forall j :: 0 <= j <= n ==> Release(claims, n) >= claims[j].now + Cost(claims, j, n)
    ensures exists j :: 0 <= j <= n && Release(claims, n) == claims[j].now + Cost(claims, j, n)
  {
    var before := claims[..n];
    assert Release(claims, n) >= claims[n].now + Cost(claims, n, n);
    if n > 0 {
      Backlog(before);
      var j :| 0 <= j < n && NextFree(before) == before[j].now + Cost(before, j, n);
      forall i | 0 <= i < n ensures Release(claims, n) >= claims[i].now + Cost(claims, i, n) {
        CostOfPrefix(claims, i, n, n);
      }
      CostOfPrefix(claims, j, n, n);
      var latest := if claims[n].now >= NextFree(before) then n else j;
      assert Release(claims, n) == claims[latest].now + Cost(claims, latest, n);
    } else {
      assert Release(claims, 0) == claims[0].now + Cost(claims, 0, 0);
    }
  }

  /** Claims that all cost the same. */
  predicate Uniform(claims: seq<Claim>, cost: nat) {
    forall i :: 0 <= i < |claims| ==> claims[i].cost == cost
  }

  lemma {:induction false} UniformCost(claims: seq<Claim>, cost: nat, j: nat, n: nat)
    requires Uniform(claims, cost) && j <= n <= |claims|
    ensures Cost(claims, j, n) == (n - j) * cost
  {
    if j == n {
    } else {
      UniformCost(claims, cost, j, n - 1);
      assert (n - 1 - j) * cost + cost == (n - j) * cost;
    }
  }

  /** With permits one by one at a fixed rate: the latest of now_j + (n - j) * L. */
  lemma UniformClosedForm(claims: seq<Claim>, cost: nat, n: nat)
    requires Uniform(claims, cost) && n < |claims|
    ensures forall j :: 0 <= j <= n ==> Release(claims, n) >= claims[j].now + (n - j) * cost
    ensures exists j :: 0 <= j <= n && Release(claims, n) == claims[j].now + (n - j) * cost
  {
    ReleaseClosedForm(claims, n);
    forall j | 0 <= j <= n ensures Cost(claims, j, n) == (n - j) * cost {
      UniformCost(claims, cost, j, n);
    }
    var j :| 0 <= j <= n && Release(claims, n) == claims[j].now + Cost(claims, j, n);
    assert Release(claims, n) == claims[j].now + (n - j) * cost;
  }

  /** A claim waits exactly when some earlier claim, delayed by all costs since, is still ahead of it. */
  lemma WaitsExactly(claims: seq<Claim>, n: nat)
    requires n < |claims|
    ensures Release(claims, n) > claims[n].now
       <==> exists j :: 0 <= j < n && claims[j].now + Cost(claims, j, n) > claims[n].now
  {
    ReleaseClosedForm(claims, n);
  }

  // Windows.

  /** How many of the first n releases fall between lo and hi. */
  function Released(claims: seq<Claim>, n: nat, lo: nat, hi: nat): nat
    requires n <= |claims|
  {
    if n == 0 then 0
    else Released(claims, n - 1, lo, hi) + if lo <= Release(claims, n - 1) <= hi then 1 else 0
  }

  lemma ReleaseSpacing(claims: seq<Claim>, n: nat)
    requires n + 1 < |claims|
    ensures Release(claims, n + 1) >= Release(claims, n) + claims[n].cost
  {
    assert claims[..n + 1][..n] == claims[..n];
  }

  /** k times gap. */
  function Steps(k: nat, gap: nat): nat {
    if k == 0 then 0 else Steps(k - 1, gap) + gap
  }

  lemma {:induction false} StepsProduct(k: nat, gap: nat)
    ensures Steps(k, gap) == k * gap
  {
    if k == 0 {
    } else {
      StepsProduct(k - 1, gap);
    }
  }

  lemma StepsFit(k: nat, gap: nat, w: nat)
    requires gap > 0 && Steps(k, gap) <= w
    ensures k <= w / gap
  {
    StepsProduct(k, gap);
    var q := w / gap;
    assert w < q * gap + gap == (q + 1) * gap;
  }

  lemma {:induction false} ReleasedSpan(claims: seq<Claim>, n: nat, lo: nat, hi: nat, gap: nat)
    requires n <= |claims| && forall i :: 0 <= i < |claims| ==> claims[i].cost >= gap
    ensures Released(claims, n, lo, hi) > 0 ==>
              && n > 0 && Release(claims, n - 1) >= lo + Steps(Released(claims, n, lo, hi) - 1, gap)
              && hi >= lo + Steps(Released(claims, n, lo, hi) - 1, gap)
  {
    if n == 0 {
    } else {
      ReleasedSpan(claims, n - 1, lo, hi, gap);
      var k := Released(claims, n - 1, lo, hi);
      if k > 0 {
        ReleaseSpacing(claims, n - 2);
      }
    }
  }

  /** No window of length W sees more than 1 + W / L releases. */
  lemma WindowBound(claims: seq<Claim>, lo: nat, hi: nat, gap: nat)
    requires gap > 0 && lo <= hi && forall i :: 0 <= i < |claims| ==> claims[i].cost >= gap
    ensures Released(claims, |claims|, lo, hi) <= 1 + (hi - lo) / gap
  {
    ReleasedSpan(claims, |claims|, lo, hi, gap);
    var k := Released(claims, |claims|, lo, hi);
    if k > 0 {
      StepsFit(k - 1, gap, hi - lo);
    }
  }

  /** The bound is met: claims that arrive together are released L apart. */
  lemma {:induction false} WindowFilled(claims: seq<Claim>, now: nat, gap: nat, n: nat, w: nat)
    requires n <= |claims| && forall i :: 0 <= i < |claims| ==> claims[i] == Claim(now, gap)
    requires n > 0 ==> Steps(n - 1, gap) <= w
    ensures Released(claims, n, now, now + w) == n
  {
    if n == 0 {
    } else {
      WindowFilled(claims, now, gap, n - 1, w);
      BurstRelease(claims, now, gap, n - 1);
    }
  }

  lemma {:induction false} BurstRelease(claims: seq<Claim>, now: nat, gap: nat, n: nat)
    requires n < |claims| && forall i :: 0 <= i < |claims| ==> claims[i] == Claim(now, gap)
    ensures Release(claims, n) == now + Steps(n, gap)
  {
    if n == 0 {
    } else {
      BurstRelease(claims, now, gap, n - 1);
      assert claims[..n][..n - 1] == claims[..n - 1];
    }
  }
}
