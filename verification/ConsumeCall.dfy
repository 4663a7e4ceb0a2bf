/** consume as the code of one caller, running among the steps of other callers: whatever they do, what
    it does is a run of the state machine. */
module ConsumeCall {
  import opened Common
  import opened TokenBucket
  import opened TokenRate

  /** What others do between two steps of call id: those of the given steps that are possible. */
  function Possible(b: Bucket, id: nat, s: State, steps: seq<Step>): seq<Step> {
    if steps == [] then [] else
    var before, step := Possible(b, id, s, steps[..|steps| - 1]), steps[|steps| - 1];
    match Exec(b, s, before)
    case None => before
    case Some(t) => if step.id != id && Next(b, t, step).Some? then before + [step] else before
  }

  lemma {:induction false} PossibleRuns(b: Bucket, id: nat, s: State, steps: seq<Step>)
    ensures var t := Exec(b, s, Possible(b, id, s, steps));
            t.Some? && (id in s.calls <==> id in t.value.calls) && (id in s.calls ==> s.calls[id] == t.value.calls[id])
  {
    if steps == [] {
    } else {
      var before, step := Possible(b, id, s, steps[..|steps| - 1]), steps[|steps| - 1];
      PossibleRuns(b, id, s, steps[..|steps| - 1]);
      var t := Exec(b, s, before).value;
      if step.id != id && Next(b, t, step).Some? {
        ExecNext(b, s, before, step);
        OthersSame(b, t, step, id);
      }
    }
  }

  /** Nothing is left out: whatever run of their own the others ask for is what they do. */
  lemma {:induction false} PossibleWhole(b: Bucket, id: nat, s: State, steps: seq<Step>)
    requires Exec(b, s, steps).Some? && forall i :: 0 <= i < |steps| ==> steps[i].id != id
    ensures Possible(b, id, s, steps) == steps
  {
    if steps == [] {
    } else {
      PossibleWhole(b, id, s, steps[..|steps| - 1]);
    }
  }

  lemma {:induction false} ExecConcat(b: Bucket, s: State, first: seq<Step>, second: seq<Step>)
    requires Exec(b, s, first).Some? && Exec(b, Exec(b, s, first).value, second).Some?
    ensures Exec(b, s, first + second) == Exec(b, Exec(b, s, first).value, second)
  {
    if second == [] {
      assert first + second == first;
    } else {
      var before := second[..|second| - 1];
      ExecConcat(b, s, first, before);
      assert (first + second)[..|first + second| - 1] == first + before;
    }
  }

  /** How often call id has been made. */
  function Calls(trace: seq<Step>, id: nat): nat {
    if trace == [] then 0
    else Calls(trace[..|trace| - 1], id) + if trace[|trace| - 1].Begin? && trace[|trace| - 1].id == id then 1 else 0
  }

  lemma CallsSnoc(trace: seq<Step>, step: Step, id: nat)
    ensures Calls(trace + [step], id) == Calls(trace, id) + if step.Begin? && step.id == id then 1 else 0
  {
    assert (trace + [step])[..|trace|] == trace;
  }

  lemma {:induction false} CallsOfOthers(b: Bucket, id: nat, s: State, steps: seq<Step>, before: seq<Step>)
    ensures Calls(before + Possible(b, id, s, steps), id) == Calls(before, id)
  {
    if steps == [] {
      assert before + Possible(b, id, s, steps) == before;
    } else {
      var earlier, step := Possible(b, id, s, steps[..|steps| - 1]), steps[|steps| - 1];
      CallsOfOthers(b, id, s, steps[..|steps| - 1], before);
      CallsSnoc(before + earlier, step, id);
      assert before + (earlier + [step]) == before + earlier + [step];
    }
  }

  /** Before an exchange: what the others do, and whether the exchange fails spuriously. */
  datatype Disturbance = Disturbance(others: seq<Step>, spurious: bool)

  class TokenBucketCell {
    const b: Bucket
    const start: State
    /** m_time, the calls that are running with it as the model sees them, and the steps so far. */
    var time: nat
    var state: State
    ghost var trace: seq<Step>

    /** The history is a run of the state machine, and m_time is its time. */
    ghost predicate Valid()
      reads this
    {
      Exec(b, start, trace) == Some(state) && time == state.time
    }

    constructor (rate: nat, burstSize: nat, t0: nat)
      requires rate > 0
      ensures Valid() && b == Make(rate, burstSize) && start == Quiescent(0, t0) && trace == []
      ensures b.perToken * rate <= 1000000 < (b.perToken + 1) * rate && b.perBurst == Wrap(burstSize * b.perToken)
    {
      b := Make(rate, burstSize);
      start := Quiescent(0, t0);
      time, state, trace := 0, Quiescent(0, t0), [];
    }

    /** Other callers run. */
    method Interleave(id: nat, others: seq<Step>)
      requires Valid()
      modifies this
      ensures Valid() && old(trace) <= trace && Calls(trace, id) == Calls(old(trace), id)
      ensures id in state.calls <==> id in old(state).calls
      ensures id in state.calls ==> state.calls[id] == old(state).calls[id]
      ensures others == [] ==> time == old(time)
    {
      var steps := Possible(b, id, state, others);
      PossibleRuns(b, id, state, others);
      ExecConcat(b, start, trace, steps);
      CallsOfOthers(b, id, state, others, trace);
      trace := trace + steps;
      state := Exec(b, state, steps).value;
      time := state.time;
    }

    /** The caller reads the clock. */
    method Arrive(id: nat, now: nat, tokens: nat)
      requires Valid() && id !in state.calls
      modifies this`state, this`trace
      ensures Valid() && trace == old(trace) + [Begin(id, now, tokens)] && Calls(trace, id) == Calls(old(trace), id) + 1
      ensures id in state.calls
      ensures state.calls[id] == Call(now, Wrap(tokens * b.perToken), Wrap(now - b.perBurst), Starting)
    {
      ExecNext(b, start, trace, Begin(id, now, tokens));
      CallsSnoc(trace, Begin(id, now, tokens), id);
      trace := trace + [Begin(id, now, tokens)];
      state := Next(b, state, Begin(id, now, tokens)).value;
    }

    method LoadTime(id: nat, c: Call) returns (oldTime: nat)
      requires Valid() && id in state.calls && state.calls[id] == c && c.phase.Starting?
      modifies this`state, this`trace
      ensures Valid() && trace == old(trace) + [Load(id)] && oldTime == time && Calls(trace, id) == Calls(old(trace), id)
      ensures id in state.calls
      ensures state.calls[id] == c.(phase := Looping(time, if c.minTime > time then c.minTime else time))
    {
      oldTime := time;
      ExecNext(b, start, trace, Load(id));
      CallsSnoc(trace, Load(id), id);
      trace := trace + [Load(id)];
      state := Next(b, state, Load(id)).value;
    }

    method CheckTime(id: nat, c: Call, newTime: nat)
      requires Valid() && id in state.calls && state.calls[id] == c && c.phase.Looping?
      requires newTime == Wrap(c.phase.newTime + c.needed)
      modifies this`state, this`trace
      ensures Valid() && trace == old(trace) + [Check(id)] && Calls(trace, id) == Calls(old(trace), id)
      ensures newTime > c.now ==> id !in state.calls
      ensures newTime <= c.now ==> id in state.calls && state.calls[id] == c.(phase := Trying(c.phase.oldTime, newTime))
    {
      ExecNext(b, start, trace, Check(id));
      CallsSnoc(trace, Check(id), id);
      trace := trace + [Check(id)];
      state := Next(b, state, Check(id)).value;
    }

    /** compare_exchange_weak. */
    method CompareExchange(id: nat, c: Call, spurious: bool) returns (done: bool)
      requires Valid() && id in state.calls && state.calls[id] == c && c.phase.Trying?
      modifies this
      ensures Valid() && done == (old(time) == c.phase.oldTime && !spurious) && Calls(trace, id) == Calls(old(trace), id)
      ensures old(trace) < trace
      ensures done ==> time == c.phase.newTime && id !in state.calls && trace == old(trace) + [Exchange(id, false)]
      ensures !done ==> time == old(time) && id in state.calls && state.calls[id] == c.(phase := Looping(time, time))
    {
      done := time == c.phase.oldTime && !spurious;
      var step := Exchange(id, time == c.phase.oldTime && spurious);
      ExecNext(b, start, trace, step);
      CallsSnoc(trace, step, id);
      trace := trace + [step];
      state := Next(b, state, step).value;
      if done {
        time := c.phase.newTime;
      }
    }

    /** One pass of the loop of consume. */
    method Attempt(id: nat, c: Call, d: Disturbance) returns (outcome: Option<bool>)
      requires Valid() && id in state.calls && state.calls[id] == c && c.phase.Looping? && time == c.phase.oldTime
      modifies this
      ensures Valid() && old(trace) < trace && Calls(trace, id) == Calls(old(trace), id)
      ensures outcome.Some? ==> id !in state.calls
      ensures outcome.Some? ==> trace[|trace| - 1] == if outcome.value then Exchange(id, false) else Check(id)
      ensures outcome.None? ==> id in state.calls && state.calls[id] == c.(phase := Looping(time, time))
      ensures d == Disturbance([], false) ==> outcome.Some?
    {
      var newTime := Wrap(c.phase.newTime + c.needed);
      CheckTime(id, c, newTime);
      if newTime > c.now {
        return Some(false);
      }
      Interleave(id, d.others);
      var done := CompareExchange(id, c.(phase := Trying(c.phase.oldTime, newTime)), d.spurious);
      outcome := if done then Some(true) else None;
    }

    /** So everything proved of the runs of the state machine holds of every history of the object. */
    lemma HistoryWithinRate(t0: nat)
      requires Valid() && start == Quiescent(0, t0) && b.perBurst <= t0 < HALF
      requires AllSane(b, t0, trace) && NoSpurious(trace)
      ensures WithinRate(b, t0, state) && state.granted <= time <= Max(0, state.grantClock)
      ensures TokensGranted(b, start, trace) * b.perToken <= b.perBurst + (state.latest - t0)
    {
      GrantedIsCharged(b, 0, t0, trace);
      RateBound(b, 0, t0, trace);
      TimeTracksGrants(b, 0, t0, trace, |trace|);
    }

    /** consume. The loop ends: once nobody disturbs the exchange it succeeds. The call is granted
        exactly when its last step is an exchange, and either way it has left the bucket. */
    method Consume(id: nat, now: nat, tokens: nat, first: seq<Step>,
                   disturbances: seq<Disturbance>) returns (granted: bool)
      requires Valid() && id !in state.calls
      modifies this
      ensures Valid() && id !in state.calls
      ensures old(trace) + [Begin(id, now, tokens)] <= trace && Calls(trace, id) == Calls(old(trace), id) + 1
      ensures trace[|trace| - 1] == if granted then Exchange(id, false) else Check(id)
    {
      var needed, minTime := Wrap(tokens * b.perToken), Wrap(now - b.perBurst);
      Arrive(id, now, tokens);
      Interleave(id, first);
      var oldTime: nat := LoadTime(id, Call(now, needed, minTime, Starting));
      var newTime: nat := oldTime;
      if minTime > oldTime {
        newTime := minTime;
      }
      var rest := disturbances;
      while true
        invariant Valid() && old(trace) + [Begin(id, now, tokens)] <= trace && Calls(trace, id) == Calls(old(trace), id) + 1
        invariant id in state.calls && state.calls[id] == Call(now, needed, minTime, Looping(oldTime, newTime))
        invariant time == oldTime
        decreases |rest|
      {
        var d := if rest == [] then Disturbance([], false) else rest[0];
        var outcome := Attempt(id, Call(now, needed, minTime, Looping(oldTime, newTime)), d);
        if outcome.Some? {
          return outcome.value;
        }
        oldTime := time;
        newTime := oldTime;
        rest := rest[1..];
      }
    }
  }
}
