/** What a token bucket grants in tokens, against the rate it was made for. */
module TokenRate {
  import opened Common
  import opened TokenBucket

  /** What call id asked for last. */
  function Asked(steps: seq<Step>, id: nat): nat {
    if steps == [] then 0 else
    var last := steps[|steps| - 1];
    if last.Begin? && last.id == id then last.tokens else Asked(steps[..|steps| - 1], id)
  }

  /** A step that ends a granted call: an exchange after which the call is gone. */
  predicate Grants(t: State, step: Step) {
    step.Exchange? && step.id !in t.calls
  }

  /** The tokens of all granted calls. */
  function TokensGranted(b: Bucket, s: State, steps: seq<Step>): nat
    requires Exec(b, s, steps).Some?
  {
    if steps == [] then 0 else
    var before, last := steps[..|steps| - 1], steps[|steps| - 1];
    TokensGranted(b, s, before) + if Grants(Exec(b, s, steps).value, last) then Asked(before, last.id) else 0
  }

  lemma AskedNext(steps: seq<Step>, step: Step, id: nat)
    ensures Asked(steps + [step], id) == if step.Begin? && step.id == id then step.tokens else Asked(steps, id)
  {
    assert (steps + [step])[..|steps|] == steps;
  }

  lemma TokensNext(b: Bucket, s: State, steps: seq<Step>, step: Step)
    requires Exec(b, s, steps).Some? && Next(b, Exec(b, s, steps).value, step).Some?
    ensures Exec(b, s, steps + [step]) == Next(b, Exec(b, s, steps).value, step)
    ensures TokensGranted(b, s, steps + [step])
         == TokensGranted(b, s, steps) + if Grants(Next(b, Exec(b, s, steps).value, step).value, step) then Asked(steps, step.id) else 0
  {
    assert (steps + [step])[..|steps|] == steps;
  }

  /** Every running call is charged for what it asked. */
  ghost predicate Charged(b: Bucket, s: State, steps: seq<Step>, tokens: nat) {
    && s.granted == tokens * b.perToken
    && forall id :: id in s.calls ==> s.calls[id].needed == Asked(steps, id) * b.perToken
  }

  lemma ChargedNext(b: Bucket, t0: nat, s: State, steps: seq<Step>, step: Step, tokens: nat, more: nat)
    requires Charged(b, s, steps, tokens) && Sane(b, t0, step) && Next(b, s, step).Some?
    requires more == tokens + if Grants(Next(b, s, step).value, step) then Asked(steps, step.id) else 0
    ensures Charged(b, Next(b, s, step).value, steps + [step], more)
  {
    var t := Next(b, s, step).value;
    forall id | id in t.calls ensures t.calls[id].needed == Asked(steps + [step], id) * b.perToken {
      AskedNext(steps, step, id);
      if step.id != id {
        OthersSame(b, s, step, id);
      } else if step.Begin? {
        SmallWrap(step.tokens * b.perToken);
      }
    }
    if Grants(t, step) {
      Distribute(tokens, Asked(steps, step.id), b.perToken);
    }
  }

  lemma Distribute(a: nat, b: nat, c: nat)
    ensures (a + b) * c == a * c + b * c
  {
  }

  /** What is granted costs perToken microseconds a token. */
  lemma {:induction false} GrantedIsCharged(b: Bucket, start: nat, t0: nat, steps: seq<Step>)
    requires AllSane(b, t0, steps) && Exec(b, Quiescent(start, t0), steps).Some?
    ensures Charged(b, Exec(b, Quiescent(start, t0), steps).value, steps, TokensGranted(b, Quiescent(start, t0), steps))
  {
    var s := Quiescent(start, t0);
    if steps == [] {
    } else {
      var before, step := steps[..|steps| - 1], steps[|steps| - 1];
      GrantedIsCharged(b, start, t0, before);
      assert steps == before + [step];
      TokensNext(b, s, before, step);
      ChargedNext(b, t0, Exec(b, s, before).value, before, step, TokensGranted(b, s, before), TokensGranted(b, s, steps));
    }
  }

  /** A run from rest in which the exchange fails only when another call changed m_time. */
  ghost predicate Calm(b: Bucket, start: nat, t0: nat, steps: seq<Step>) {
    AllSane(b, t0, steps) && NoSpurious(steps) && Exec(b, Quiescent(start, t0), steps).Some?
  }

  /** The time that has passed. */
  function Elapsed(b: Bucket, start: nat, t0: nat, steps: seq<Step>): int
    requires Exec(b, Quiescent(start, t0), steps).Some?
  {
    Exec(b, Quiescent(start, t0), steps).value.latest - t0
  }

  /** The rate bound in tokens and microseconds. */
  lemma RateInTokens(rate: nat, burstSize: nat, b: Bucket, start: nat, t0: nat, steps: seq<Step>)
    requires rate > 0 && b == Make(rate, burstSize) && burstSize * b.perToken < WORD
    requires b.perBurst <= t0 < HALF && start <= t0 && Calm(b, start, t0, steps)
    ensures TokensGranted(b, Quiescent(start, t0), steps) * b.perToken
         <= burstSize * b.perToken + Elapsed(b, start, t0, steps)
  {
    RateBound(b, start, t0, steps);
    GrantedIsCharged(b, start, t0, steps);
  }

  // Where the bucket keeps to the rate, and where it limits at all.

  lemma TokensLast(b: Bucket, s: State, steps: seq<Step>, before: seq<Step>, step: Step)
    requires steps == before + [step] && Exec(b, s, steps).Some?
    ensures Exec(b, s, before).Some?
    ensures TokensGranted(b, s, steps)
         == TokensGranted(b, s, before) + if Grants(Exec(b, s, steps).value, step) then Asked(before, step.id) else 0
  {
    assert steps[..|before|] == before;
  }

  /** A call alone, undisturbed, is granted what it asks. */
  lemma SoloTokens(b: Bucket, s: State, before: seq<Step>, id: nat, clock: nat, tokens: nat)
    requires Exec(b, s, before + Solo(id, clock, tokens, false)).Some?
    requires Exec(b, s, before + Solo(id, clock, tokens, false)).value.calls == map[]
    ensures Exec(b, s, before).Some?
    ensures TokensGranted(b, s, before + Solo(id, clock, tokens, false)) == TokensGranted(b, s, before) + tokens
  {
    var r1 := before + [Begin(id, clock, tokens)];
    var r2, r3 := r1 + [Load(id)], r1 + [Load(id)] + [Check(id)];
    TokensLast(b, s, before + Solo(id, clock, tokens, false), r3, Exchange(id, false));
    TokensLast(b, s, r3, r2, Check(id));
    TokensLast(b, s, r2, r1, Load(id));
    TokensLast(b, s, r1, before, Begin(id, clock, tokens));
    AskedNext(before, Begin(id, clock, tokens), id);
    AskedNext(r1, Load(id), id);
    AskedNext(r2, Check(id), id);
  }

  /** In any time a new bucket grants at most a burst and rate tokens a second. */
  ghost predicate KeepsRate(rate: nat, burstSize: nat, b: Bucket, t0: nat) {
    forall steps: seq<Step> :: Calm(b, 0, t0, steps) ==> AtRate(rate, burstSize, b, t0, steps)
  }

  predicate AtRate(rate: nat, burstSize: nat, b: Bucket, t0: nat, steps: seq<Step>)
    requires Exec(b, Quiescent(0, t0), steps).Some?
  {
    TokensGranted(b, Quiescent(0, t0), steps) * 1000000 <= burstSize * 1000000 + Elapsed(b, 0, t0, steps) * rate
  }

  lemma Scaled(tokens: nat, burstSize: nat, perToken: nat, elapsed: nat, rate: nat)
    requires tokens * perToken <= burstSize * perToken + elapsed && perToken * rate == 1000000
    ensures tokens * 1000000 <= burstSize * 1000000 + elapsed * rate
  {
    var extra := burstSize * perToken + elapsed - tokens * perToken;
    assert extra * rate >= 0;
    assert (burstSize * perToken) * rate == burstSize * (perToken * rate);
    assert (tokens * perToken) * rate == tokens * (perToken * rate);
    Distribute(tokens * perToken, extra, rate);
    Distribute(burstSize * perToken, elapsed, rate);
  }

  /** A rate divides a second exactly when its tokens take up all of it. */
  lemma DividesSecond(rate: nat, perToken: nat)
    requires rate > 0 && perToken * rate <= 1000000 < (perToken + 1) * rate
    ensures 1000000 % rate == 0 <==> perToken * rate == 1000000
    ensures perToken == 0 <==> rate > 1000000
  {
    var q, r := 1000000 / rate, 1000000 % rate;
    assert 1000000 == q * rate + r && 0 <= r < rate;
    Distribute(perToken, 1, rate);
    SameQuotient(1000000, rate, perToken, q);
    if perToken > 0 {
      AtLeast(rate, perToken);
    }
  }

  lemma SameQuotient(n: nat, m: nat, p: nat, q: nat)
    requires p * m <= n < p * m + m && q * m <= n < q * m + m
    ensures p == q
  {
    Before(p, q, m);
    Before(q, p, m);
  }

  lemma Before(a: nat, b: nat, m: nat)
    ensures a < b ==> a * m + m <= b * m
  {
    Distribute(a, 1, m);
    if a < b {
      Distribute(a + 1, b - (a + 1), m);
    }
  }

  lemma NoBurstNoTokens(b: Bucket, t0: nat, steps: seq<Step>)
    requires b.perBurst == 0 && b.perToken > 0 && t0 < HALF && Calm(b, 0, t0, steps)
    ensures TokensGranted(b, Quiescent(0, t0), steps) == 0
  {
    NoBurstGrantsNothing(b, 0, t0, steps);
    GrantedIsCharged(b, 0, t0, steps);
    Positive(TokensGranted(b, Quiescent(0, t0), steps), b.perToken);
  }

  lemma Positive(a: nat, b: nat)
    requires a * b == 0 && b > 0
    ensures a == 0
  {
    assert a > 0 ==> a * b >= b;
  }

  lemma WholeBurst(b: Bucket, burstSize: nat, t0: nat) returns (steps: seq<Step>)
    requires b.perBurst == burstSize * b.perToken && b.perBurst <= t0 < HALF
    ensures AllSane(b, t0, steps) && NoSpurious(steps)
    ensures Exec(b, Quiescent(0, t0), steps) == Some(State(t0, map[], b.perBurst, t0, t0))
    ensures TokensGranted(b, Quiescent(0, t0), steps) == burstSize
  {
    steps := Solo(0, t0, burstSize, false);
    assert [] + steps == steps;
    SoloClamped(b, Quiescent(0, t0), [], Quiescent(0, t0), 0, t0, burstSize);
    SoloTokens(b, Quiescent(0, t0), [], 0, t0, burstSize);
  }

  lemma OneMore(b: Bucket, s: State, t0: nat, first: seq<Step>) returns (steps: seq<Step>)
    requires b.perToken <= b.perBurst <= t0 && t0 + b.perToken < HALF && AllSane(b, t0, first) && NoSpurious(first)
    requires Exec(b, s, first).Some?
    requires var t := Exec(b, s, first).value; t.time == t0 == t.latest && t.calls == map[]
    ensures AllSane(b, t0, steps) && NoSpurious(steps)
    ensures Exec(b, s, steps).Some? && Exec(b, s, steps).value.latest == t0 + b.perToken
    ensures TokensGranted(b, s, steps) == TokensGranted(b, s, first) + 1
  {
    var t, clock := Exec(b, s, first).value, t0 + b.perToken;
    var second := Solo(1, clock, 1, false);
    SoloClamped(b, t, first, s, 1, clock, 1);
    SoloTokens(b, s, first, 1, clock, 1);
    assert AllSane(b, t0, second) && NoSpurious(second);
    steps := first + second;
  }

  /** A call that takes the whole burst, and one that takes a token as soon as there is one again. */
  lemma BurstAndOne(b: Bucket, burstSize: nat, t0: nat) returns (steps: seq<Step>)
    requires burstSize > 0 && b.perBurst == burstSize * b.perToken && b.perBurst <= t0 && t0 + b.perToken < HALF
    ensures Calm(b, 0, t0, steps) && Elapsed(b, 0, t0, steps) == b.perToken
    ensures TokensGranted(b, Quiescent(0, t0), steps) == burstSize + 1
  {
    var first := WholeBurst(b, burstSize, t0);
    AtLeast(b.perToken, burstSize);
    assert b.perToken <= b.perBurst;
    steps := OneMore(b, Quiescent(0, t0), t0, first);
  }

  /** Where a token costs nothing, any number is granted at once. */
  lemma AllForFree(b: Bucket, n: nat, t0: nat) returns (steps: seq<Step>)
    requires b == Bucket(0, 0) && t0 < HALF
    ensures Calm(b, 0, t0, steps) && Elapsed(b, 0, t0, steps) == 0 && TokensGranted(b, Quiescent(0, t0), steps) == n
  {
    steps := Solo(0, t0, n, false);
    assert [] + steps == steps;
    SoloClamped(b, Quiescent(0, t0), [], Quiescent(0, t0), 0, t0, n);
    SoloTokens(b, Quiescent(0, t0), [], 0, t0, n);
  }

  /** The cost of a token is rounded down, so a new bucket keeps to the rate it was made for exactly when
      that divides a second, or there is no burst and so nothing to grant. */
  lemma KeepsRateExactly(rate: nat, burstSize: nat, b: Bucket, t0: nat)
    requires rate > 0 && b == Make(rate, burstSize) && burstSize * b.perToken < WORD
    requires b.perBurst <= t0 && t0 + b.perToken < HALF
    ensures KeepsRate(rate, burstSize, b, t0) <==> 1000000 % rate == 0 || (burstSize == 0 && rate <= 1000000)
  {
    DividesSecond(rate, b.perToken);
    if 1000000 % rate == 0 || (burstSize == 0 && rate <= 1000000) {
      forall steps: seq<Step> | Calm(b, 0, t0, steps) ensures AtRate(rate, burstSize, b, t0, steps) {
        InvRun(b, 0, t0, steps);
        if 1000000 % rate == 0 {
          RateInTokens(rate, burstSize, b, 0, t0, steps);
          Scaled(TokensGranted(b, Quiescent(0, t0), steps), burstSize, b.perToken, Elapsed(b, 0, t0, steps), rate);
        } else {
          NoBurstNoTokens(b, t0, steps);
        }
      }
    } else {
      BreaksRate(rate, burstSize, b, t0);
    }
  }

  lemma BreaksRate(rate: nat, burstSize: nat, b: Bucket, t0: nat)
    requires rate > 0 && b == Make(rate, burstSize) && burstSize * b.perToken < WORD
    requires b.perBurst <= t0 && t0 + b.perToken < HALF
    requires b.perToken * rate < 1000000 && (burstSize > 0 || b.perToken == 0)
    ensures !KeepsRate(rate, burstSize, b, t0)
  {
    var steps: seq<Step>;
    if b.perToken == 0 {
      steps := AllForFree(b, burstSize + 1, t0);
    } else {
      steps := BurstAndOne(b, burstSize, t0);
    }
    assert !AtRate(rate, burstSize, b, t0, steps);
  }

  /** No more than some number of tokens is granted while no time passes, and no more than one a
      microsecond after that. */
  ghost predicate Limits(b: Bucket, t0: nat, most: nat) {
    forall steps: seq<Step> :: Calm(b, 0, t0, steps) ==>
      TokensGranted(b, Quiescent(0, t0), steps) <= most + Elapsed(b, 0, t0, steps)
  }

  lemma LimitsTokens(rate: nat, burstSize: nat, b: Bucket, t0: nat)
    requires rate > 0 && b == Make(rate, burstSize) && burstSize * b.perToken < WORD && b.perBurst <= t0 < HALF
    requires b.perToken > 0
    ensures Limits(b, t0, b.perBurst)
  {
    forall steps: seq<Step> | Calm(b, 0, t0, steps)
      ensures TokensGranted(b, Quiescent(0, t0), steps) <= b.perBurst + Elapsed(b, 0, t0, steps)
    {
      RateInTokens(rate, burstSize, b, 0, t0, steps);
      AtLeast(TokensGranted(b, Quiescent(0, t0), steps), b.perToken);
    }
  }

  lemma AtLeast(a: nat, b: nat)
    requires b > 0
    ensures a <= a * b == b * a
  {
  }

  lemma LimitsNothing(b: Bucket, t0: nat, most: nat)
    requires b == Bucket(0, 0) && t0 < HALF
    ensures !Limits(b, t0, most)
  {
    var steps := AllForFree(b, most + 1, t0);
  }

  /** A bucket limits what it grants exactly up to a rate of a million tokens a second. */
  lemma LimitedExactly(rate: nat, burstSize: nat, b: Bucket, t0: nat)
    requires rate > 0 && b == Make(rate, burstSize) && burstSize * b.perToken < WORD && b.perBurst <= t0 < HALF
    ensures (exists most: nat :: Limits(b, t0, most)) <==> rate <= 1000000
  {
    DividesSecond(rate, b.perToken);
    if b.perToken > 0 {
      LimitsTokens(rate, burstSize, b, t0);
    } else {
      forall most: nat ensures !Limits(b, t0, most) {
        LimitsNothing(b, t0, most);
      }
    }
  }
}
