/** The lock-free token bucket. Any number of consume calls run interleaved; each shared access
    is one step. compare_exchange_weak may fail even when the value matches (spuriously). */
module TokenBucket {
  import opened Common

  // uint64_t arithmetic.
  const WORD: nat := 0x1_0000_0000_0000_0000
  const HALF: nat := 0x8000_0000_0000_0000

  function Wrap(x: int): nat {
    x % WORD
  }

  datatype Bucket = Bucket(perToken: nat, perBurst: nat)

  /** The constructor: the most microseconds that a token can cost at this rate. */
  function Make(rate: nat, burstSize: nat): (b: Bucket)
    requires rate > 0
    ensures b.perToken * rate <= 1000000 < (b.perToken + 1) * rate
    ensures b.perBurst < WORD && (burstSize * b.perToken < WORD ==> b.perBurst == burstSize * b.perToken)
  {
    var perToken := 1000000 / rate;
    Bucket(perToken, Wrap(burstSize * perToken))
  }

  /** Where a call stands: before the load, at the head of the loop, or before the exchange. */
  datatype Phase = Starting | Looping(oldTime: nat, newTime: nat) | Trying(oldTime: nat, newTime: nat)

  datatype Call = Call(now: nat, needed: nat, minTime: nat, phase: Phase)

  /** time is m_time. The rest is history: the cost of all granted calls, the latest clock read of
      any call, and the latest clock read of a granted call. */
  datatype State = State(time: nat, calls: map<nat, Call>, granted: nat, latest: nat, grantClock: nat)

  datatype Step =
    | Begin(id: nat, now: nat, tokens: nat)
    | Load(id: nat)
    | Check(id: nat)
    | Exchange(id: nat, spurious: bool)

  function Next(b: Bucket, s: State, step: Step): Option<State> {
    match step
    case Begin(id, now, tokens) =>
      if id in s.calls then None
      else Some(s.(calls := s.calls[id := Call(now, Wrap(tokens * b.perToken), Wrap(now - b.perBurst), Starting)],
                   latest := Max(s.latest, now)))
    case Load(id) =>
      if id !in s.calls || !s.calls[id].phase.Starting? then None
      else
        var c := s.calls[id];
        Some(s.(calls := s.calls[id := c.(phase := Looping(s.time, if c.minTime > s.time then c.minTime else s.time))]))
    case Check(id) =>
      if id !in s.calls || !s.calls[id].phase.Looping? then None
      else
        var c := s.calls[id];
        var newTime := Wrap(c.phase.newTime + c.needed);
        if newTime > c.now then Some(s.(calls := s.calls - {id}))
        else Some(s.(calls := s.calls[id := c.(phase := Trying(c.phase.oldTime, newTime))]))
    case Exchange(id, spurious) =>
      if id !in s.calls || !s.calls[id].phase.Trying? then None
      else
        var c := s.calls[id];
        if s.time == c.phase.oldTime && !spurious then
          Some(State(c.phase.newTime, s.calls - {id}, s.granted + c.needed, s.latest, Max(s.grantClock, c.now)))
        else
          Some(s.(calls := s.calls[id := c.(phase := Looping(s.time, s.time))]))
  }

  function Exec(b: Bucket, s: State, steps: seq<Step>): Option<State> {
    if steps == [] then Some(s)
    else match Exec(b, s, steps[..|steps| - 1])
         case None => None
         case Some(t) => Next(b, t, steps[|steps| - 1])
  }

  /** No call is running; m_time is time; the clock has reached t0. */
  function Quiescent(time: nat, t0: nat): State {
    State(time, map[], 0, t0, 0)
  }

  /** Clocks are at least t0 and the burst time, and no sum leaves 64 bits. */
  predicate Sane(b: Bucket, t0: nat, step: Step) {
    step.Begin? ==> t0 <= step.now < HALF && b.perBurst <= step.now && step.tokens * b.perToken < HALF
  }

  predicate AllSane(b: Bucket, t0: nat, steps: seq<Step>) {
    forall i :: 0 <= i < |steps| ==> Sane(b, t0, steps[i])
  }

  predicate NoSpurious(steps: seq<Step>) {
    forall i :: 0 <= i < |steps| && steps[i].Exchange? ==> !steps[i].spurious
  }

  // What every step keeps.

  ghost predicate CallOk(b: Bucket, s: State, c: Call) {
    && c.now <= s.latest < HALF && c.needed < HALF && b.perBurst <= c.now && c.minTime == c.now - b.perBurst
    && match c.phase
       case Starting => true
       case Looping(o, n) => o <= n <= s.latest && o <= s.time
       case Trying(o, n) => o + c.needed <= n <= c.now && o <= s.time
  }

  ghost predicate ClocksOk(start: nat, s: State) {
    && s.grantClock <= s.latest
    && start + s.granted <= s.time <= Max(start, s.grantClock)
    && s.time <= s.latest < HALF
  }

  ghost predicate Inv(b: Bucket, start: nat, s: State) {
    (forall id :: id in s.calls ==> CallOk(b, s, s.calls[id])) && ClocksOk(start, s)
  }

  lemma StillOk(b: Bucket, s: State, t: State, c: Call)
    requires CallOk(b, s, c) && s.latest <= t.latest < HALF && s.time <= t.time
    ensures CallOk(b, t, c)
  {
  }

  lemma SmallWrap(x: nat)
    requires x < WORD
    ensures Wrap(x) == x
  {
  }

  /** A step leaves the other calls alone. */
  lemma OthersSame(b: Bucket, s: State, step: Step, id: nat)
    requires Next(b, s, step).Some? && id != step.id
    ensures var t := Next(b, s, step).value;
            (id in s.calls <==> id in t.calls) && (id in s.calls ==> s.calls[id] == t.calls[id])
  {
  }

  /** What a step does to the clocks and to the call that takes it. */
  lemma OwnStep(b: Bucket, start: nat, t0: nat, s: State, step: Step)
    requires ClocksOk(start, s) && Sane(b, t0, step) && Next(b, s, step).Some?
    requires step.id in s.calls ==> CallOk(b, s, s.calls[step.id])
    ensures var t := Next(b, s, step).value;
            && ClocksOk(start, t) && s.time <= t.time && s.latest <= t.latest && s.granted <= t.granted
            && (step.id in t.calls ==> CallOk(b, t, t.calls[step.id]))
  {
    match step
    case Begin(id, now, tokens) =>
      SmallWrap(tokens * b.perToken);
      SmallWrap(now - b.perBurst);
    case Check(id) =>
      SmallWrap(s.calls[id].phase.newTime + s.calls[id].needed);
    case _ =>
  }

  lemma InvStep(b: Bucket, start: nat, t0: nat, s: State, step: Step)
    requires Inv(b, start, s) && Sane(b, t0, step) && Next(b, s, step).Some?
    ensures var t := Next(b, s, step).value;
            Inv(b, start, t) && s.time <= t.time && s.latest <= t.latest && s.granted <= t.granted
  {
    var t := Next(b, s, step).value;
    OwnStep(b, start, t0, s, step);
    forall id | id in t.calls && id != step.id ensures CallOk(b, t, t.calls[id]) {
      OthersSame(b, s, step, id);
      StillOk(b, s, t, s.calls[id]);
    }
  }

  lemma {:induction false} InvRun(b: Bucket, start: nat, t0: nat, steps: seq<Step>)
    requires AllSane(b, t0, steps) && start <= t0 < HALF && Exec(b, Quiescent(start, t0), steps).Some?
    ensures Inv(b, start, Exec(b, Quiescent(start, t0), steps).value)
    ensures t0 <= Exec(b, Quiescent(start, t0), steps).value.latest
  {
    if steps == [] {
    } else {
      var n := |steps| - 1;
      InvRun(b, start, t0, steps[..n]);
      InvStep(b, start, t0, Exec(b, Quiescent(start, t0), steps[..n]).value, steps[n]);
    }
  }

  /** Step invariant, spurious failures included: m_time never goes back, never passes the latest
      clock read by a granted call, and has grown by at least the cost of all grants. */
  lemma {:induction false} TimeTracksGrants(b: Bucket, start: nat, t0: nat, steps: seq<Step>, n: nat)
    requires AllSane(b, t0, steps) && start <= t0 < HALF && n <= |steps|
    requires Exec(b, Quiescent(start, t0), steps).Some?
    ensures Exec(b, Quiescent(start, t0), steps[..n]).Some?
    ensures var s, t := Exec(b, Quiescent(start, t0), steps[..n]).value, Exec(b, Quiescent(start, t0), steps).value;
            s.time <= t.time && start + t.granted <= t.time <= Max(start, t.grantClock) && t.grantClock <= t.latest
  {
    InvRun(b, start, t0, steps);
    if n == |steps| {
      assert steps[..n] == steps;
    } else {
      var m := |steps| - 1;
      TimeTracksGrants(b, start, t0, steps[..m], n);
      assert steps[..m][..n] == steps[..n];
      InvRun(b, start, t0, steps[..m]);
      InvStep(b, start, t0, Exec(b, Quiescent(start, t0), steps[..m]).value, steps[m]);
    }
  }

  // The rate bound.

  /** Until the first grant every call that has loaded m_time holds a clamped value; from the first
      grant on m_time stays ahead of the clamped start by the cost of all grants. */
  ghost predicate Clamped(b: Bucket, start: nat, t0: nat, s: State)
    requires b.perBurst <= t0
  {
    var base := Max(start, t0 - b.perBurst);
    && (forall id :: id in s.calls ==> t0 <= s.calls[id].now)
    && (base + s.granted <= s.time
        || (s.time == start && s.granted == 0 && forall id :: id in s.calls ==> FirstAttempt(start, base, s.calls[id])))
  }

  predicate FirstAttempt(start: nat, base: nat, c: Call) {
    match c.phase
    case Starting => true
    case Looping(o, n) => o == start && base <= n
    case Trying(o, n) => o == start && base + c.needed <= n
  }

  lemma ClampedStep(b: Bucket, start: nat, t0: nat, s: State, step: Step)
    requires b.perBurst <= t0 && Inv(b, start, s) && Clamped(b, start, t0, s)
    requires Sane(b, t0, step) && (step.Exchange? ==> !step.spurious) && Next(b, s, step).Some?
    ensures Clamped(b, start, t0, Next(b, s, step).value)
  {
    var base, t := Max(start, t0 - b.perBurst), Next(b, s, step).value;
    if !step.Begin? {
      assert CallOk(b, s, s.calls[step.id]);
    }
    if base + s.granted > s.time {
      assert step.id in t.calls ==> FirstAttempt(start, base, t.calls[step.id]);
    }
  }

  lemma {:induction false} ClampedRun(b: Bucket, start: nat, t0: nat, steps: seq<Step>)
    requires b.perBurst <= t0 && start <= t0 < HALF && AllSane(b, t0, steps) && NoSpurious(steps)
    requires Exec(b, Quiescent(start, t0), steps).Some?
    ensures Clamped(b, start, t0, Exec(b, Quiescent(start, t0), steps).value)
  {
    if steps == [] {
    } else {
      var n := |steps| - 1;
      ClampedRun(b, start, t0, steps[..n]);
      InvRun(b, start, t0, steps[..n]);
      ClampedStep(b, start, t0, Exec(b, Quiescent(start, t0), steps[..n]).value, steps[n]);
    }
  }

  /** The bound the bucket is for: what is granted from t0 on costs at most one burst plus the
      time that has passed. */
  ghost predicate WithinRate(b: Bucket, t0: nat, s: State) {
    s.granted <= b.perBurst + (s.latest - t0)
  }

  /** If the exchange fails only when another call changed m_time, every interleaving of any number
      of calls stays within the rate. */
  lemma RateBound(b: Bucket, start: nat, t0: nat, steps: seq<Step>)
    requires b.perBurst <= t0 && start <= t0 < HALF && AllSane(b, t0, steps) && NoSpurious(steps)
    requires Exec(b, Quiescent(start, t0), steps).Some?
    ensures WithinRate(b, t0, Exec(b, Quiescent(start, t0), steps).value)
  {
    InvRun(b, start, t0, steps);
    ClampedRun(b, start, t0, steps);
  }

  // With spurious failures, the retry loses the clamp.

  ghost predicate AlwaysWithinRate(b: Bucket, start: nat, t0: nat) {
    forall steps: seq<Step> :: AllSane(b, t0, steps) && Exec(b, Quiescent(start, t0), steps).Some? ==>
      WithinRate(b, t0, Exec(b, Quiescent(start, t0), steps).value)
  }

  ghost predicate NothingToGrant(s: State) {
    s.granted == 0 && forall id :: id in s.calls ==>
      var c := s.calls[id];
      match c.phase
      case Starting => true
      case Looping(o, n) => c.now <= n || c.needed == 0
      case Trying(o, n) => c.needed == 0
  }

  lemma NoBurstStep(b: Bucket, start: nat, t0: nat, s: State, step: Step)
    requires b.perBurst == 0 && Inv(b, start, s) && NothingToGrant(s) && Sane(b, t0, step) && Next(b, s, step).Some?
    ensures NothingToGrant(Next(b, s, step).value)
  {
    if !step.Begin? {
      assert CallOk(b, s, s.calls[step.id]);
    }
  }

  lemma {:induction false} NoBurstGrantsNothing(b: Bucket, start: nat, t0: nat, steps: seq<Step>)
    requires b.perBurst == 0 && start <= t0 < HALF && AllSane(b, t0, steps) && Exec(b, Quiescent(start, t0), steps).Some?
    ensures NothingToGrant(Exec(b, Quiescent(start, t0), steps).value)
  {
    if steps == [] {
    } else {
      var n := |steps| - 1;
      NoBurstGrantsNothing(b, start, t0, steps[..n]);
      InvRun(b, start, t0, steps[..n]);
      NoBurstStep(b, start, t0, Exec(b, Quiescent(start, t0), steps[..n]).value, steps[n]);
    }
  }

  lemma ExecNext(b: Bucket, s: State, steps: seq<Step>, step: Step)
    requires Exec(b, s, steps).Some?
    ensures Exec(b, s, steps + [step]) == Next(b, Exec(b, s, steps).value, step)
  {
    assert (steps + [step])[..|steps|] == steps;
  }

  /** One call alone: it reads the clock, loads m_time and tries; its exchange fails spuriously if
      asked to, and then it retries. */
  function Solo(id: nat, clock: nat, tokens: nat, spurious: bool): seq<Step> {
    [Begin(id, clock, tokens), Load(id), Check(id)]
    + (if spurious then [Exchange(id, true), Check(id)] else [])
    + [Exchange(id, false)]
  }

  // The steps of a call that runs alone.

  lemma OneCall(id: nat, c: Call, d: Call)
    ensures map[id := c][id := d] == map[id := d] && map[id := c] - {id} == map[]
  {
  }

  lemma BeginAlone(b: Bucket, s: State, id: nat, clock: nat, tokens: nat, needed: nat)
    requires s.calls == map[] && s.latest <= clock < HALF && b.perBurst <= clock
    requires needed == tokens * b.perToken < HALF
    ensures Next(b, s, Begin(id, clock, tokens))
         == Some(s.(calls := map[id := Call(clock, needed, clock - b.perBurst, Starting)], latest := clock))
  {
    SmallWrap(needed);
    SmallWrap(clock - b.perBurst);
    assert s.calls[id := Call(clock, needed, clock - b.perBurst, Starting)]
        == map[id := Call(clock, needed, clock - b.perBurst, Starting)];
  }

  lemma LoadAlone(b: Bucket, s: State, id: nat, c: Call)
    requires s.calls == map[id := c] && c.phase.Starting?
    ensures Next(b, s, Load(id)) == Some(s.(calls := map[id := c.(phase := Looping(s.time, Max(s.time, c.minTime)))]))
  {
    OneCall(id, c, c.(phase := Looping(s.time, Max(s.time, c.minTime))));
  }

  lemma CheckAlone(b: Bucket, s: State, id: nat, c: Call)
    requires s.calls == map[id := c] && c.phase.Looping? && c.phase.newTime + c.needed <= c.now < HALF
    ensures Next(b, s, Check(id))
         == Some(s.(calls := map[id := c.(phase := Trying(c.phase.oldTime, c.phase.newTime + c.needed))]))
  {
    SmallWrap(c.phase.newTime + c.needed);
    OneCall(id, c, c.(phase := Trying(c.phase.oldTime, c.phase.newTime + c.needed)));
  }

  lemma ExchangeAlone(b: Bucket, s: State, id: nat, c: Call, spurious: bool)
    requires s.calls == map[id := c] && c.phase.Trying? && c.phase.oldTime == s.time
    ensures Next(b, s, Exchange(id, spurious))
         == Some(if spurious then s.(calls := map[id := c.(phase := Looping(s.time, s.time))])
                 else State(c.phase.newTime, map[], s.granted + c.needed, s.latest, Max(s.grantClock, c.now)))
  {
    OneCall(id, c, c.(phase := Looping(s.time, s.time)));
  }

  lemma Loaded(b: Bucket, s: State, before: seq<Step>, from: State, id: nat, clock: nat, tokens: nat, c: Call)
    requires Exec(b, from, before) == Some(s) && s.calls == map[] && s.latest <= clock < HALF && b.perBurst <= clock
    requires c == Call(clock, tokens * b.perToken, clock - b.perBurst, Starting) && c.needed < HALF
    ensures Exec(b, from, before + [Begin(id, clock, tokens), Load(id)])
         == Some(s.(calls := map[id := c.(phase := Looping(s.time, Max(s.time, c.minTime)))], latest := clock))
  {
    var r1 := before + [Begin(id, clock, tokens)];
    ExecNext(b, from, before, Begin(id, clock, tokens));
    BeginAlone(b, s, id, clock, tokens, c.needed);
    ExecNext(b, from, r1, Load(id));
    LoadAlone(b, s.(calls := map[id := c], latest := clock), id, c);
    assert r1 + [Load(id)] == before + [Begin(id, clock, tokens), Load(id)];
  }

  /** A call alone in the bucket, about to exchange m_time for n. */
  function Tried(s: State, id: nat, clock: nat, c: Call, n: nat): State {
    State(s.time, map[id := c.(phase := Trying(s.time, n))], s.granted, clock, s.grantClock)
  }

  lemma FirstTry(b: Bucket, s: State, before: seq<Step>, from: State, id: nat, clock: nat, tokens: nat, c: Call)
    requires Exec(b, from, before) == Some(s) && s.calls == map[] && s.latest <= clock < HALF && b.perBurst <= clock
    requires c == Call(clock, tokens * b.perToken, clock - b.perBurst, Starting)
    requires c.needed <= b.perBurst && s.time + c.needed <= clock
    ensures Exec(b, from, before + [Begin(id, clock, tokens), Load(id), Check(id)])
         == Some(Tried(s, id, clock, c, Max(s.time, c.minTime) + c.needed))
  {
    Loaded(b, s, before, from, id, clock, tokens, c);
    var r2, c1 := before + [Begin(id, clock, tokens), Load(id)], c.(phase := Looping(s.time, Max(s.time, c.minTime)));
    ExecNext(b, from, r2, Check(id));
    CheckAlone(b, s.(calls := map[id := c1], latest := clock), id, c1);
    assert r2 + [Check(id)] == before + [Begin(id, clock, tokens), Load(id), Check(id)];
  }

  lemma SoloClamped(b: Bucket, s: State, before: seq<Step>, from: State, id: nat, clock: nat, tokens: nat)
    requires Exec(b, from, before) == Some(s) && s.calls == map[] && s.latest <= clock < HALF
    requires b.perBurst <= clock && tokens * b.perToken <= b.perBurst && s.time + tokens * b.perToken <= clock
    ensures Exec(b, from, before + Solo(id, clock, tokens, false))
         == Some(State(Max(s.time, clock - b.perBurst) + tokens * b.perToken, map[],
                       s.granted + tokens * b.perToken, clock, Max(s.grantClock, clock)))
  {
    var c := Call(clock, tokens * b.perToken, clock - b.perBurst, Starting);
    var c3 := c.(phase := Trying(s.time, Max(s.time, c.minTime) + c.needed));
    var r3 := before + [Begin(id, clock, tokens), Load(id), Check(id)];
    FirstTry(b, s, before, from, id, clock, tokens, c);
    ExecNext(b, from, r3, Exchange(id, false));
    ExchangeAlone(b, Tried(s, id, clock, c, c3.phase.newTime), id, c3, false);
    assert r3 + [Exchange(id, false)] == before + Solo(id, clock, tokens, false);
  }

  lemma SoloRetried(b: Bucket, s: State, id: nat, clock: nat, tokens: nat)
    requires s.calls == map[] && s.latest <= clock < HALF
    requires b.perBurst <= clock && tokens * b.perToken <= b.perBurst && s.time + tokens * b.perToken <= clock
    ensures Exec(b, s, Solo(id, clock, tokens, true))
         == Some(State(s.time + tokens * b.perToken, map[], s.granted + tokens * b.perToken, clock, Max(s.grantClock, clock)))
  {
    var c := Call(clock, tokens * b.perToken, clock - b.perBurst, Starting);
    var first := SoloStart(id, clock, tokens);
    FirstTry(b, s, [], s, id, clock, tokens, c);
    RetriedAfter(b, s, first, id, clock, c, Max(s.time, c.minTime) + c.needed);
  }

  lemma SoloStart(id: nat, clock: nat, tokens: nat) returns (first: seq<Step>)
    ensures first == [] + [Begin(id, clock, tokens), Load(id), Check(id)]
    ensures first + [Exchange(id, true), Check(id), Exchange(id, false)] == Solo(id, clock, tokens, true)
  {
    first := [Begin(id, clock, tokens), Load(id), Check(id)];
  }

  lemma RetriedAfter(b: Bucket, s: State, before: seq<Step>, id: nat, clock: nat, c: Call, n: nat)
    requires Exec(b, s, before) == Some(Tried(s, id, clock, c, n)) && s.time + c.needed <= c.now == clock < HALF
    ensures Exec(b, s, before + [Exchange(id, true), Check(id), Exchange(id, false)])
         == Some(State(s.time + c.needed, map[], s.granted + c.needed, clock, Max(s.grantClock, clock)))
  {
    TriedState(s, id, clock, c, n);
    Retry(b, s, id, c, before, s.(latest := clock), n);
  }

  lemma TriedState(s: State, id: nat, clock: nat, c: Call, n: nat)
    ensures var t := s.(latest := clock); Tried(s, id, clock, c, n) == t.(calls := map[id := c.(phase := Trying(t.time, n))])
  {
  }

  lemma Retry(b: Bucket, from: State, id: nat, c: Call, before: seq<Step>, s: State, n: nat)
    requires Exec(b, from, before) == Some(s.(calls := map[id := c.(phase := Trying(s.time, n))]))
    requires s.time + c.needed <= c.now < HALF
    ensures Exec(b, from, before + [Exchange(id, true), Check(id), Exchange(id, false)])
         == Some(State(s.time + c.needed, map[], s.granted + c.needed, s.latest, Max(s.grantClock, c.now)))
  {
    var c3, r4 := c.(phase := Trying(s.time, n)), before + [Exchange(id, true)];
    ExecNext(b, from, before, Exchange(id, true));
    ExchangeAlone(b, s.(calls := map[id := c3]), id, c3, true);
    SecondTry(b, from, id, c, r4, s);
    assert r4 + [Check(id), Exchange(id, false)] == before + [Exchange(id, true), Check(id), Exchange(id, false)];
  }

  lemma SecondTry(b: Bucket, from: State, id: nat, c: Call, before: seq<Step>, s: State)
    requires Exec(b, from, before) == Some(s.(calls := map[id := c.(phase := Looping(s.time, s.time))]))
    requires s.time + c.needed <= c.now < HALF
    ensures Exec(b, from, before + [Check(id), Exchange(id, false)])
         == Some(State(s.time + c.needed, map[], s.granted + c.needed, s.latest, Max(s.grantClock, c.now)))
  {
    var c4, c5 := c.(phase := Looping(s.time, s.time)), c.(phase := Trying(s.time, s.time + c.needed));
    var r5 := before + [Check(id)];
    ExecNext(b, from, before, Check(id));
    CheckAlone(b, s.(calls := map[id := c4]), id, c4);
    ExecNext(b, from, r5, Exchange(id, false));
    ExchangeAlone(b, s.(calls := map[id := c5]), id, c5, false);
    assert r5 + [Exchange(id, false)] == before + [Check(id), Exchange(id, false)];
  }

  /** A call whose exchange fails spuriously is granted one token against the old m_time; a call
      after it still gets a full burst. */
  lemma OverrunBreaksRate(b: Bucket, start: nat, t0: nat, burstSize: nat)
    requires b.perBurst == burstSize * b.perToken && 0 < b.perBurst
    requires start + b.perBurst < t0 && t0 + b.perToken <= HALF
    ensures !AlwaysWithinRate(b, start, t0)
  {
    var clock := t0 + b.perToken - 1;
    var first, second := Solo(0, clock, 1, true), Solo(1, clock, burstSize, false);
    assert b.perToken <= b.perBurst by {
      assert burstSize >= 1;
    }
    SoloRetried(b, Quiescent(start, t0), 0, clock, 1);
    SoloClamped(b, Exec(b, Quiescent(start, t0), first).value, first, Quiescent(start, t0), 1, clock, burstSize);
    var steps := first + second;
    assert AllSane(b, t0, steps);
    assert !WithinRate(b, t0, Exec(b, Quiescent(start, t0), steps).value);
  }

  /** The code meets the rate bound in every interleaving, spurious failures included, exactly when
      the bucket has no burst or had not been idle for longer than a burst. */
  lemma RateBoundExactly(rate: nat, burstSize: nat, b: Bucket, start: nat, t0: nat)
    requires rate > 0 && b == Make(rate, burstSize) && burstSize * b.perToken < WORD
    requires b.perBurst <= t0 && start <= t0 && t0 + b.perToken <= HALF && t0 < HALF
    ensures AlwaysWithinRate(b, start, t0) <==> b.perBurst == 0 || t0 <= start + b.perBurst
  {
    if b.perBurst == 0 || t0 <= start + b.perBurst {
      forall steps: seq<Step> | AllSane(b, t0, steps) && Exec(b, Quiescent(start, t0), steps).Some?
        ensures WithinRate(b, t0, Exec(b, Quiescent(start, t0), steps).value)
      {
        InvRun(b, start, t0, steps);
        if b.perBurst == 0 {
          NoBurstGrantsNothing(b, start, t0, steps);
        }
      }
    } else {
      OverrunBreaksRate(b, start, t0, burstSize);
    }
  }
}
