/** The run loops of the benchmark: operations are retried by stepping an unsigned counter back, under
    one budget of errors for warm-up and measurement. */
module Benchmark {
  import opened Common

  const ERROR_MAX: nat := 1000
  const MEASURE_INTERVAL: nat := 1000000

  /** size_t. */
  type Size = n: nat | n < SIZE_LIMIT

  function Inc(i: Size): Size {
    if i == SIZE_LIMIT - 1 then 0 else i + 1
  }

  function Dec(i: Size): Size {
    if i == 0 then SIZE_LIMIT - 1 else i - 1
  }

  function Plus(a: Size, b: Size): Size {
    if a + b < SIZE_LIMIT then a + b else a + b - SIZE_LIMIT
  }

  function Minus(a: Size, b: Size): Size {
    if a >= b then a - b else a + SIZE_LIMIT - b
  }

  // One loop.

  /** What a loop meets on one turn: does the time bound still hold, and does the operation succeed. */
  datatype Turn = Turn(inTime: bool, success: bool)

  type World = nat -> Turn

  function Successes(w: World, k: nat): (s: nat)
    ensures s <= k
  {
    if k == 0 then 0 else Successes(w, k - 1) + if w(k - 1).success then 1 else 0
  }

  function Failures(w: World, k: nat): nat {
    k - Successes(w, k)
  }

  datatype End = Done | TimedOut | TooManyErrors

  /** After k turns there is work left, time left and budget left. */
  predicate GoesOn(w: World, ops: nat, errors: nat, k: nat) {
    Successes(w, k) < ops && w(k).inTime && errors + Failures(w, k) <= ERROR_MAX
  }

  /** The loop stops after k turns, the first k at which it does not go on. */
  ghost predicate StopsAt(w: World, ops: nat, errors: nat, k: nat, end: End) {
    && (forall j :: 0 <= j < k ==> GoesOn(w, ops, errors, j))
    && match end
       case Done => Successes(w, k) == ops && errors + Failures(w, k) <= ERROR_MAX
       case TimedOut => Successes(w, k) < ops && !w(k).inTime && errors + Failures(w, k) <= ERROR_MAX
       case TooManyErrors => errors + Failures(w, k) == ERROR_MAX + 1
  }

  /** The loop over operations: a failure steps i back, below zero if need be, and the loop's own
      increment undoes that. */
  method Attempts(w: World, ops: Size, errors: nat) returns (end: End, i: Size, errCount: nat, turns: nat)
    requires errors <= ERROR_MAX
    ensures StopsAt(w, ops, errors, turns, end)
    ensures errCount == errors + Failures(w, turns)
    ensures end != TooManyErrors ==> i == Successes(w, turns)
  {
    i, errCount, turns := 0, errors, 0;
    while i < ops && w(turns).inTime
      invariant i == Successes(w, turns) <= ops
      invariant errCount == errors + Failures(w, turns) <= ERROR_MAX
      invariant forall j :: 0 <= j < turns ==> GoesOn(w, ops, errors, j)
      decreases ops - i + ERROR_MAX - errCount
    {
      assert GoesOn(w, ops, errors, turns);
      var success := w(turns).success;
      turns := turns + 1;
      if !success {
        i := Dec(i);
        errCount := errCount + 1;
        if errCount > ERROR_MAX {
          return TooManyErrors, i, errCount, turns;
        }
      }
      i := Inc(i);
    }
    end := if i < ops then TimedOut else Done;
  }

  lemma {:induction false} CountsGrow(w: World, j: nat, k: nat)
    requires j <= k
    ensures Successes(w, j) <= Successes(w, k) && Failures(w, j) <= Failures(w, k)
  {
    if j == k {
    } else {
      CountsGrow(w, j, k - 1);
    }
  }

  /** A loop has one end. */
  lemma StopsOnce(w: World, ops: nat, errors: nat, k: nat, end: End, l: nat, other: End)
    requires StopsAt(w, ops, errors, k, end) && StopsAt(w, ops, errors, l, other)
    ensures k == l && end == other
  {
    assert !GoesOn(w, ops, errors, k);
    assert !GoesOn(w, ops, errors, l);
  }

  /** Outcomes that let a loop complete: the operations succeed before the budget and the time run out. */
  ghost predicate Completes(w: World, ops: nat, errors: nat, m: nat) {
    && Successes(w, m) == ops && errors + Failures(w, m) <= ERROR_MAX
    && forall j :: 0 <= j < m ==> w(j).inTime
  }

  lemma StopCompletes(w: World, ops: nat, errors: nat, k: nat)
    requires StopsAt(w, ops, errors, k, Done)
    ensures Completes(w, ops, errors, k)
  {
    forall j | 0 <= j < k ensures w(j).inTime {
      assert GoesOn(w, ops, errors, j);
    }
  }

  lemma FirstStop(w: World, ops: nat, errors: nat, k: nat, m: nat)
    requires (forall j :: 0 <= j < k ==> GoesOn(w, ops, errors, j)) && Completes(w, ops, errors, m)
    ensures k <= m
  {
    assert !GoesOn(w, ops, errors, m);
  }

  lemma DoneExactly(w: World, ops: nat, errors: nat, k: nat, end: End)
    requires StopsAt(w, ops, errors, k, end)
    ensures end == Done <==> exists m: nat :: Completes(w, ops, errors, m)
  {
    if end == Done {
      StopCompletes(w, ops, errors, k);
    } else if m: nat :| Completes(w, ops, errors, m) {
      FirstStop(w, ops, errors, k, m);
      CountsGrow(w, k, m);
    }
  }

  // The write phase and the read phase.

  datatype Phase = Phase(warmEnd: End, warmTurns: nat, mainEnd: End, mainTurns: nat, errors: nat)

  /** Warm-up, then the measured loop, on what is left of the budget. When the budget runs out the
      process ends, so nothing follows. */
  ghost predicate PhaseEnds(p: Phase, warmUp: bool, numOps: nat, errors: nat, warm: World, main: World) {
    && (if warmUp then StopsAt(warm, numOps / 10, errors, p.warmTurns, p.warmEnd) else p.warmEnd == Done && p.warmTurns == 0)
    && p.errors == errors + Failures(warm, p.warmTurns) + Failures(main, p.mainTurns)
    && if p.warmEnd == TooManyErrors then p.mainEnd == TooManyErrors && p.mainTurns == 0
       else StopsAt(main, numOps, errors + Failures(warm, p.warmTurns), p.mainTurns, p.mainEnd)
  }

  method RunPhase(warmUp: bool, numOps: Size, errors: nat, warm: World, main: World) returns (p: Phase)
    requires errors <= ERROR_MAX
    ensures PhaseEnds(p, warmUp, numOps, errors, warm, main)
  {
    var warmEnd, warmTurns, errCount := Done, 0, errors;
    var i: Size;
    if warmUp {
      warmEnd, i, errCount, warmTurns := Attempts(warm, numOps / 10, errCount);
      if warmEnd == TooManyErrors {
        return Phase(warmEnd, warmTurns, TooManyErrors, 0, errCount);
      }
    }
    var mainEnd, mainTurns;
    mainEnd, i, errCount, mainTurns := Attempts(main, numOps, errCount);
    p := Phase(warmEnd, warmTurns, mainEnd, mainTurns, errCount);
  }

  datatype Report = Report(exited: bool, write: Phase, read: Phase)

  const SKIPPED := Phase(Done, 0, Done, 0, 0)

  /** run: the write phase, then the read phase. Only a warm-up of the reads gives them a budget of
      their own; without it they go on with what the writes left. */
  method Run(write: bool, read: bool, warmUp: bool, numOps: Size,
             writeWarm: World, writeMain: World, readWarm: World, readMain: World) returns (r: Report)
    ensures if write then PhaseEnds(r.write, warmUp, numOps, 0, writeWarm, writeMain) else r.write == SKIPPED
    ensures if read && r.write.mainEnd != TooManyErrors
            then PhaseEnds(r.read, warmUp, numOps, if warmUp then 0 else r.write.errors, readWarm, readMain)
            else r.read == SKIPPED
    ensures r.exited <==> r.write.mainEnd == TooManyErrors || r.read.mainEnd == TooManyErrors
  {
    var errCount := 0;
    var w, d := SKIPPED, SKIPPED;
    if write {
      w := RunPhase(warmUp, numOps, errCount, writeWarm, writeMain);
      if w.mainEnd == TooManyErrors {
        return Report(true, w, d);
      }
      errCount := w.errors;
    }
    if read {
      if warmUp {
        errCount := 0;
      }
      d := RunPhase(warmUp, numOps, errCount, readWarm, readMain);
      if d.mainEnd == TooManyErrors {
        return Report(true, w, d);
      }
    }
    r := Report(false, w, d);
  }

  /** A phase that does not end the process and is not cut off by the clock has done exactly what was
      asked, and its errors, together with those it started from, are within the budget. */
  lemma PhaseOutcome(p: Phase, warmUp: bool, numOps: nat, errors: nat, warm: World, main: World)
    requires PhaseEnds(p, warmUp, numOps, errors, warm, main) && p.mainEnd != TooManyErrors
    ensures p.errors == errors + Failures(warm, p.warmTurns) + Failures(main, p.mainTurns) <= ERROR_MAX
    ensures p.warmEnd != TimedOut ==> Successes(warm, p.warmTurns) == if warmUp then numOps / 10 else 0
    ensures p.mainEnd != TimedOut ==> Successes(main, p.mainTurns) == numOps
  {
    assert p.warmEnd != TooManyErrors;
  }

  /** Outcomes that let warm-up and measurement together complete within one budget. */
  ghost predicate PhaseCompletes(warmUp: bool, numOps: nat, errors: nat, warm: World, main: World, m: nat, n: nat) {
    && (if warmUp then Completes(warm, numOps / 10, errors, m) else m == 0)
    && Completes(main, numOps, errors + Failures(warm, m), n)
  }

  lemma PhaseDone(p: Phase, warmUp: bool, numOps: nat, errors: nat, warm: World, main: World, m: nat, n: nat)
    requires PhaseEnds(p, warmUp, numOps, errors, warm, main)
    requires PhaseCompletes(warmUp, numOps, errors, warm, main, m, n)
    ensures p.warmEnd == Done && p.mainEnd == Done
  {
    if warmUp {
      DoneExactly(warm, numOps / 10, errors, p.warmTurns, p.warmEnd);
      FirstStop(warm, numOps / 10, errors, p.warmTurns, m);
      CountsGrow(warm, p.warmTurns, m);
    }
    assert Completes(main, numOps, errors + Failures(warm, p.warmTurns), n);
    DoneExactly(main, numOps, errors + Failures(warm, p.warmTurns), p.mainTurns, p.mainEnd);
  }

  /** A phase leaves normally, without a timeout, exactly when its outcomes let it complete. */
  lemma PhaseExactly(p: Phase, warmUp: bool, numOps: nat, errors: nat, warm: World, main: World)
    requires PhaseEnds(p, warmUp, numOps, errors, warm, main)
    ensures p.warmEnd == Done && p.mainEnd == Done
       <==> exists m: nat, n: nat :: PhaseCompletes(warmUp, numOps, errors, warm, main, m, n)
  {
    if p.warmEnd == Done && p.mainEnd == Done {
      StopCompletes(main, numOps, errors + Failures(warm, p.warmTurns), p.mainTurns);
      if warmUp {
        StopCompletes(warm, numOps / 10, errors, p.warmTurns);
      }
      assert PhaseCompletes(warmUp, numOps, errors, warm, main, p.warmTurns, p.mainTurns);
    } else if m: nat, n: nat :| PhaseCompletes(warmUp, numOps, errors, warm, main, m, n) {
      PhaseDone(p, warmUp, numOps, errors, warm, main, m, n);
    }
  }

  // Asynchronous batches.

  /** One turn of the loop over batches: does the batch succeed, and the clock afterwards. */
  datatype Batch = Batch(success: bool, now: Size)

  datatype Record = Record(time: Size, count: Size)

  function Sum(records: seq<Record>): nat {
    if records == [] then 0 else Sum(records[..|records| - 1]) + records[|records| - 1].count
  }

  lemma SumSnoc(records: seq<Record>, r: Record)
    ensures Sum(records + [r]) == Sum(records) + r.count
  {
    assert (records + [r])[..|records|] == records;
  }

  /** How many of the first k batches succeed. */
  function Good(batches: seq<Batch>, k: nat): (g: nat)
    requires k <= |batches|
    ensures g <= k
    decreases k
  {
    if k == 0 then 0 else Good(batches, k - 1) + if batches[k - 1].success then 1 else 0
  }

  /** The writes of the successful ones among them. */
  function Written(batches: seq<Batch>, k: nat, nAsync: nat): nat
    requires k <= |batches|
    decreases k
  {
    if k == 0 then 0 else Written(batches, k - 1, nAsync) + if batches[k - 1].success then nAsync else 0
  }

  /** How far they advance the counter of the loop: a failed batch, by one less. */
  function Advanced(batches: seq<Batch>, k: nat, nAsync: nat): int
    requires k <= |batches|
    decreases k
  {
    if k == 0 then 0 else Advanced(batches, k - 1, nAsync) + if batches[k - 1].success then nAsync else nAsync - 1
  }

  lemma {:induction false} Totals(batches: seq<Batch>, k: nat, nAsync: nat)
    requires k <= |batches|
    ensures Written(batches, k, nAsync) == nAsync * Good(batches, k)
    ensures Advanced(batches, k, nAsync) == nAsync * Good(batches, k) + (nAsync - 1) * (k - Good(batches, k))
  {
    if k == 0 {
    } else {
      var good := Good(batches, k - 1);
      Totals(batches, k - 1, nAsync);
      Distribute(nAsync, good);
      Distribute(nAsync - 1, k - 1 - good);
    }
  }

  lemma Distribute(a: int, b: int)
    ensures a * (b + 1) == a * b + a
  {
  }

  /** Measurements end at last and are at least an interval apart. */
  predicate Apart(records: seq<Record>, last: Size) {
    && records != [] && records[|records| - 1].time == last
    && (|records| > 1 ==>
          && Minus(last, records[|records| - 2].time) >= MEASURE_INTERVAL
          && Apart(records[..|records| - 1], records[|records| - 2].time))
  }

  lemma ApartSnoc(records: seq<Record>, last: Size, r: Record)
    requires Apart(records, last) && Minus(r.time, last) >= MEASURE_INTERVAL
    ensures Apart(records + [r], r.time)
  {
    assert (records + [r])[..|records|] == records;
  }

  /** What has been written out after some turns, the pending count, and when the last line was written. */
  datatype Output = Output(records: seq<Record>, writes: Size, last: Size)

  /** A failed batch adds nothing. */
  function Counted(writes: Size, b: Batch, nAsync: Size): Size {
    if b.success then Plus(writes, nAsync) else writes
  }

  /** At the end of an interval the pending count becomes a line. */
  function Due(o: Output, now: Size): Output {
    if Minus(now, o.last) >= MEASURE_INTERVAL then Output(o.records + [Record(now, o.writes)], 0, now) else o
  }

  /** At the end of an interval the pending count is written out and starts again. */
  method Measure(o: Output, now: Size) returns (p: Output)
    ensures p == Due(o, now)
    ensures Apart(o.records, o.last) ==> Apart(p.records, p.last)
    ensures Sum(p.records) + p.writes == Sum(o.records) + o.writes
  {
    p := o;
    if Minus(now, o.last) >= MEASURE_INTERVAL {
      SumSnoc(o.records, Record(now, o.writes));
      p := Output(o.records + [Record(now, o.writes)], 0, now);
    }
  }

  /** The last line is written at the end, whenever that is. */
  predicate Measured(records: seq<Record>, last: Size, finish: Size) {
    records != [] && records[|records| - 1].time == finish && Apart(records[..|records| - 1], last)
  }

  /** The loop over batches after some turns: i is its counter, counted the writes written out or
      pending, short of all writes by how often the pending count has passed the width of its type.
      While i cannot do the same, it stays below numOps until the last turn. */
  ghost predicate Progress(batches: seq<Batch>, numOps: Size, nAsync: Size, turns: nat, i: Size, bad: nat,
                           counted: nat, passed: nat) {
    && turns <= |batches| && bad == turns - Good(batches, turns)
    && counted + SIZE_LIMIT * passed == Written(batches, turns, nAsync)
    && (nAsync > 0 && numOps + nAsync <= SIZE_LIMIT ==>
          i == Advanced(batches, turns, nAsync) && Unfinished(batches, numOps, nAsync, turns))
  }

  /** Before each of these turns the counter was below numOps. */
  ghost predicate Unfinished(batches: seq<Batch>, numOps: Size, nAsync: Size, turns: nat) {
    turns == 0
    || (turns <= |batches| && Advanced(batches, turns - 1, nAsync) < numOps && Unfinished(batches, numOps, nAsync, turns - 1))
  }

  lemma {:induction false} UnfinishedAt(batches: seq<Batch>, numOps: Size, nAsync: Size, turns: nat, k: nat)
    requires Unfinished(batches, numOps, nAsync, turns) && k < turns <= |batches|
    ensures Advanced(batches, k, nAsync) < numOps
  {
    if k == turns - 1 {
    } else {
      UnfinishedAt(batches, numOps, nAsync, turns - 1, k);
    }
  }

  lemma SuccessTurn(batches: seq<Batch>, numOps: Size, nAsync: Size, turns: nat, i: Size, bad: nat,
                    sum: nat, writes: Size, passed: nat)
    requires Progress(batches, numOps, nAsync, turns, i, bad, sum + writes, passed)
    requires i < numOps && turns < |batches| && batches[turns].success
    ensures Progress(batches, numOps, nAsync, turns + 1, Plus(i, nAsync), bad, sum + Plus(writes, nAsync),
                     if writes + nAsync < SIZE_LIMIT then passed else passed + 1)
  {
  }

  lemma FailureTurn(batches: seq<Batch>, numOps: Size, nAsync: Size, turns: nat, i: Size, bad: nat,
                    counted: nat, passed: nat)
    requires Progress(batches, numOps, nAsync, turns, i, bad, counted, passed)
    requires i < numOps && turns < |batches| && !batches[turns].success
    ensures Progress(batches, numOps, nAsync, turns + 1, Plus(Dec(i), nAsync), bad + 1, counted, passed)
  {
  }

  /** The loop is done in time after k batches, where its counter cannot wrap and errors were made before. */
  predicate DoneAfter(batches: seq<Batch>, numOps: nat, nAsync: nat, errors: nat, k: nat) {
    && k <= |batches| && errors + k - Good(batches, k) <= ERROR_MAX && Advanced(batches, k, nAsync) >= numOps
    && forall j: nat :: j < k ==> Advanced(batches, j, nAsync) < numOps
  }

  lemma {:induction false} BadGrow(batches: seq<Batch>, j: nat, k: nat)
    requires j <= k <= |batches|
    ensures j - Good(batches, j) <= k - Good(batches, k)
  {
    if j == k {
    } else {
      BadGrow(batches, j, k - 1);
    }
  }

  /** Where its counter cannot wrap, the loop is done in time exactly when the batches allow it. */
  ghost predicate DoneWhenever(batches: seq<Batch>, numOps: nat, nAsync: nat, errors: nat, turns: nat, end: End) {
    nAsync > 0 && numOps + nAsync <= SIZE_LIMIT ==>
      && (end == Done <==> exists k: nat :: DoneAfter(batches, numOps, nAsync, errors, k))
      && (end == Done ==> DoneAfter(batches, numOps, nAsync, errors, turns))
  }

  lemma EndsWhenever(batches: seq<Batch>, numOps: Size, nAsync: Size, errors: nat, turns: nat, end: End, i: Size, bad: nat,
                     counted: nat, passed: nat)
    requires Progress(batches, numOps, nAsync, turns, i, bad, counted, passed)
    requires match end
             case Done => errors + bad <= ERROR_MAX && i >= numOps
             case TimedOut => turns == |batches| && i < numOps
             case TooManyErrors => errors + bad > ERROR_MAX
    ensures DoneWhenever(batches, numOps, nAsync, errors, turns, end)
  {
    if nAsync > 0 && numOps + nAsync <= SIZE_LIMIT {
      forall k: nat | k < turns ensures Advanced(batches, k, nAsync) < numOps {
        UnfinishedAt(batches, numOps, nAsync, turns, k);
      }
      if end == Done {
        assert DoneAfter(batches, numOps, nAsync, errors, turns);
      } else {
        forall k: nat | k <= |batches| ensures !DoneAfter(batches, numOps, nAsync, errors, k) {
          if turns <= k {
            BadGrow(batches, turns, k);
          }
        }
      }
    }
  }

  function OutputAfter(batches: seq<Batch>, k: nat, nAsync: Size, begin: Size): (o: Output)
    requires k <= |batches|
    ensures o.records != []
    decreases k
  {
    if k == 0 then Output([Record(begin, 0)], 0, begin)
    else
      var o, b := OutputAfter(batches, k - 1, nAsync, begin), batches[k - 1];
      Due(o.(writes := Counted(o.writes, b, nAsync)), b.now)
  }

  /** No line is put off: it starts with a line for the beginning, lines once written stay, */
  lemma {:induction false} LinesStay(batches: seq<Batch>, j: nat, k: nat, nAsync: Size, begin: Size)
    requires j <= k <= |batches|
    ensures OutputAfter(batches, j, nAsync, begin).records <= OutputAfter(batches, k, nAsync, begin).records
    ensures OutputAfter(batches, k, nAsync, begin).records[0] == Record(begin, 0)
    decreases k, j
  {
    if j < k {
      LinesStay(batches, j, k - 1, nAsync, begin);
    } else if k > 0 {
      LinesStay(batches, k - 1, k - 1, nAsync, begin);
    }
  }

  /** and after every batch the last one is less than an interval old, so that it was written at the first
      batch after the interval had passed; */
  lemma {:induction false} LinesInTime(batches: seq<Batch>, k: nat, nAsync: Size, begin: Size)
    requires k <= |batches|
    ensures var o := OutputAfter(batches, k, nAsync, begin);
            && o.records[|o.records| - 1].time == o.last
            && (k > 0 ==> Minus(batches[k - 1].now, o.last) < MEASURE_INTERVAL)
    decreases k
  {
    if k == 0 {
    } else {
      LinesInTime(batches, k - 1, nAsync, begin);
    }
  }

  lemma {:induction false} LinesApart(batches: seq<Batch>, k: nat, nAsync: Size, begin: Size)
    requires k <= |batches|
    ensures var o := OutputAfter(batches, k, nAsync, begin); Apart(o.records, o.last)
    decreases k
  {
    if k == 0 {
    } else {
      LinesApart(batches, k - 1, nAsync, begin);
      var o, b := OutputAfter(batches, k - 1, nAsync, begin), batches[k - 1];
      if Minus(b.now, o.last) >= MEASURE_INTERVAL {
        ApartSnoc(o.records, o.last, Record(b.now, Counted(o.writes, b, nAsync)));
      }
    }
  }

  lemma {:induction false} OutputCounts(batches: seq<Batch>, k: nat, nAsync: Size, begin: Size) returns (passed: nat)
    requires k <= |batches|
    ensures var o := OutputAfter(batches, k, nAsync, begin);
            Sum(o.records) + o.writes + SIZE_LIMIT * passed == Written(batches, k, nAsync)
  {
    if k == 0 {
      passed := 0;
      SumSnoc([], Record(begin, 0));
    } else {
      passed := OutputCounts(batches, k - 1, nAsync, begin);
      var o, b := OutputAfter(batches, k - 1, nAsync, begin), batches[k - 1];
      if b.success && o.writes + nAsync >= SIZE_LIMIT {
        passed := passed + 1;
      }
      SumSnoc(o.records, Record(b.now, Counted(o.writes, b, nAsync)));
    }
  }

  /** Batch k has made a line necessary. */
  predicate WritesLine(batches: seq<Batch>, k: nat, nAsync: Size, begin: Size)
    requires 0 < k <= |batches|
  {
    |OutputAfter(batches, k, nAsync, begin).records| == |OutputAfter(batches, k - 1, nAsync, begin).records| + 1
  }

  lemma LineWritten(batches: seq<Batch>, k: nat, nAsync: Size, begin: Size)
    requires 0 < k <= |batches|
    ensures var o, p := OutputAfter(batches, k - 1, nAsync, begin), OutputAfter(batches, k, nAsync, begin);
            && (WritesLine(batches, k, nAsync, begin) <==> Minus(batches[k - 1].now, o.last) >= MEASURE_INTERVAL)
            && (WritesLine(batches, k, nAsync, begin) ==>
                  && p.records == o.records + [Record(batches[k - 1].now, Counted(o.writes, batches[k - 1], nAsync))]
                  && p.writes == 0)
            && (!WritesLine(batches, k, nAsync, begin) ==> p.records == o.records)
  {
  }

  /** and a line counts the writes since the line before it, short by how often the counter has wrapped. */
  lemma LineCounts(batches: seq<Batch>, j: nat, k: nat, nAsync: Size, begin: Size) returns (passed: nat)
    requires 0 < j < k <= |batches| && WritesLine(batches, j, nAsync, begin) && WritesLine(batches, k, nAsync, begin)
    requires OutputAfter(batches, k - 1, nAsync, begin).records == OutputAfter(batches, j, nAsync, begin).records
    ensures var r := OutputAfter(batches, k, nAsync, begin).records;
            Written(batches, k, nAsync) == Written(batches, j, nAsync) + r[|r| - 1].count + SIZE_LIMIT * passed
  {
    var before := OutputCounts(batches, j, nAsync, begin);
    var after := OutputCounts(batches, k, nAsync, begin);
    LineWritten(batches, j, nAsync, begin);
    LineWritten(batches, k, nAsync, begin);
    WrittenGrows(batches, j, k, nAsync);
    var r := OutputAfter(batches, k, nAsync, begin).records;
    SumSnoc(r[..|r| - 1], r[|r| - 1]);
    passed := Between(before, after, r[|r| - 1].count);
  }

  lemma Between(before: nat, after: nat, count: Size) returns (passed: nat)
    requires SIZE_LIMIT * before <= count + SIZE_LIMIT * after
    ensures after == before + passed
  {
    passed := after - before;
  }

  lemma {:induction false} WrittenGrows(batches: seq<Batch>, j: nat, k: nat, nAsync: nat)
    requires j <= k <= |batches|
    ensures Written(batches, j, nAsync) <= Written(batches, k, nAsync)
  {
    if j == k {
    } else {
      WrittenGrows(batches, j, k - 1, nAsync);
    }
  }

  lemma NextTurn(batches: seq<Batch>, numOps: Size, nAsync: Size, turns: nat, i: Size, bad: nat,
                 sum: nat, writes: Size, passed: nat)
    requires Progress(batches, numOps, nAsync, turns, i, bad, sum + writes, passed) && i < numOps && turns < |batches|
    ensures var b := batches[turns];
            Progress(batches, numOps, nAsync, turns + 1, Plus(if b.success then i else Dec(i), nAsync),
                     bad + if b.success then 0 else 1, sum + Counted(writes, b, nAsync),
                     if b.success && writes + nAsync >= SIZE_LIMIT then passed + 1 else passed)
  {
    if batches[turns].success {
      SuccessTurn(batches, numOps, nAsync, turns, i, bad, sum, writes, passed);
    } else {
      FailureTurn(batches, numOps, nAsync, turns, i, bad, sum + writes, passed);
    }
  }

  /** The try block, or the handler of what it throws. */
  method TryBatch(b: Batch, nAsync: Size, i: Size, errCount: nat, o: Output) returns (newI: Size, newErrors: nat, p: Output)
    ensures newI == if b.success then i else Dec(i)
    ensures newErrors == errCount + if b.success then 0 else 1
    ensures p == o.(writes := Counted(o.writes, b, nAsync))
  {
    newI, newErrors, p := i, errCount, o;
    if b.success {
      p := o.(writes := Plus(o.writes, nAsync));
    } else {
      newI := Dec(i);
      newErrors := errCount + 1;
    }
  }

  /** The last line, and whether the loop has done its work. */
  method LastLine(records: seq<Record>, writes: Size, ghost last: Size, finish: Size, workLeft: bool)
    returns (end: End, newRecords: seq<Record>)
    requires Apart(records, last)
    ensures end == if workLeft then TimedOut else Done
    ensures newRecords == records + [Record(finish, writes)]
    ensures Sum(newRecords) == Sum(records) + writes && Measured(newRecords, last, finish)
  {
    SumSnoc(records, Record(finish, writes));
    assert (records + [Record(finish, writes)])[..|records|] == records;
    newRecords := records + [Record(finish, writes)];
    end := if workLeft then TimedOut else Done;
  }

  /** The loop of async_writes itself. It is left early when the errors are too many. */
  method WriteLoop(numOps: Size, nAsync: Size, errors: nat, begin: Size, batches: seq<Batch>)
    returns (i: Size, errCount: nat, o: Output, turns: nat, ghost passed: nat)
    requires errors <= ERROR_MAX
    ensures errors <= errCount && turns <= |batches|
    ensures Progress(batches, numOps, nAsync, turns, if errCount > ERROR_MAX then Plus(i, nAsync) else i, errCount - errors,
                     Sum(o.records) + o.writes, passed)
    ensures errCount <= ERROR_MAX ==> (i >= numOps || turns == |batches|) && o == OutputAfter(batches, turns, nAsync, begin)
    ensures errCount > ERROR_MAX ==> turns > 0 && o.records == OutputAfter(batches, turns - 1, nAsync, begin).records
  {
    o, i, errCount, turns, passed := Output([Record(begin, 0)], 0, begin), 0, errors, 0, 0;
    while i < numOps && turns < |batches|
      invariant errors <= errCount <= ERROR_MAX
      invariant Progress(batches, numOps, nAsync, turns, i, errCount - errors, Sum(o.records) + o.writes, passed)
      invariant o == OutputAfter(batches, turns, nAsync, begin)
      decreases |batches| - turns
    {
      var b := batches[turns];
      NextTurn(batches, numOps, nAsync, turns, i, errCount - errors, Sum(o.records), o.writes, passed);
      passed := if b.success && o.writes + nAsync >= SIZE_LIMIT then passed + 1 else passed;
      i, errCount, o := TryBatch(b, nAsync, i, errCount, o);
      turns := turns + 1;
      if errCount > ERROR_MAX {
        return;
      }
      o := Measure(o, b.now);
      i := Plus(i, nAsync);
    }
  }

  /** async_writes, the measured loop: batches until the counter reaches numOps or the time is up.
      The interval counts it writes out add up to the writes of the successful batches. A failed batch
      steps the counter back by one and not by nAsync, so it still advances it. */
  method AsyncWrites(numOps: Size, nAsync: Size, errors: nat, begin: Size, batches: seq<Batch>, finish: Size)
    returns (end: End, i: Size, errCount: nat, records: seq<Record>, turns: nat, ghost passed: nat)
    requires errors <= ERROR_MAX
    ensures turns <= |batches|
    ensures end == Done ==> i >= numOps
    ensures end == TimedOut ==> i < numOps && turns == |batches|
    ensures errCount == errors + turns - Good(batches, turns)
    ensures end != TooManyErrors ==> Progress(batches, numOps, nAsync, turns, i, errCount - errors, Sum(records), passed)
    ensures end == TooManyErrors <==> errCount > ERROR_MAX
    ensures end != TooManyErrors ==> exists last: Size :: Measured(records, last, finish)
    ensures DoneWhenever(batches, numOps, nAsync, errors, turns, end)
    ensures end != TooManyErrors ==>
              var o := OutputAfter(batches, turns, nAsync, begin);
              records == o.records + [Record(finish, o.writes)]
    ensures end == TooManyErrors ==> turns > 0 && records == OutputAfter(batches, turns - 1, nAsync, begin).records
  {
    var o;
    i, errCount, o, turns, passed := WriteLoop(numOps, nAsync, errors, begin, batches);
    if errCount > ERROR_MAX {
      end, records := TooManyErrors, o.records;
      EndsWhenever(batches, numOps, nAsync, errors, turns, end, Plus(i, nAsync), errCount - errors,
                   Sum(o.records) + o.writes, passed);
    } else {
      LinesApart(batches, turns, nAsync, begin);
      end, records := LastLine(o.records, o.writes, o.last, finish, i < numOps);
      EndsWhenever(batches, numOps, nAsync, errors, turns, end, i, errCount - errors, Sum(records), passed);
    }
  }

  /** What a loop that did not run out of budget leaves behind: its counts are the writes of the
      successful batches, and its counter is that plus nAsync - 1 for each failed batch. */
  lemma AsyncOutcome(batches: seq<Batch>, numOps: Size, nAsync: Size, turns: nat, i: Size, bad: nat,
                     counted: nat, passed: nat)
    requires Progress(batches, numOps, nAsync, turns, i, bad, counted, passed)
    ensures counted + SIZE_LIMIT * passed == nAsync * Good(batches, turns)
    ensures nAsync > 0 && numOps + nAsync <= SIZE_LIMIT ==>
              i == nAsync * Good(batches, turns) + (nAsync - 1) * bad && counted == nAsync * Good(batches, turns)
  {
    Totals(batches, turns, nAsync);
    if nAsync > 0 && numOps + nAsync <= SIZE_LIMIT {
      NonNegative(nAsync - 1, bad);
      assert SIZE_LIMIT * passed <= i < SIZE_LIMIT;
    }
  }

  lemma NonNegative(a: nat, b: nat)
    ensures a * b >= 0
  {
  }

  lemma OneByOneOutcome(batches: seq<Batch>, numOps: nat, errors: nat, k: nat)
    requires DoneAfter(batches, numOps, 1, errors, k)
    ensures Good(batches, k) == numOps
  {
    Totals(batches, k, 1);
    if k > 0 {
      Totals(batches, k - 1, 1);
    }
  }

  lemma {:induction false} AllGood(batches: seq<Batch>, k: nat, nAsync: nat)
    requires k <= |batches| && forall j :: 0 <= j < k ==> batches[j].success
    ensures Good(batches, k) == k && Advanced(batches, k, nAsync) == nAsync * k
    decreases k
  {
    if k == 0 {
    } else {
      AllGood(batches, k - 1, nAsync);
      Distribute(nAsync, k - 1);
    }
  }

  /** As many batches succeed as leave work to do, then one or two fail. */
  lemma FailuresCount(numOps: nat, nAsync: nat, errors: nat) returns (batches: seq<Batch>, k: nat)
    requires nAsync > 1 && numOps > 0 && errors < ERROR_MAX && (errors + 1 < ERROR_MAX || numOps % nAsync != 0)
    ensures DoneAfter(batches, numOps, nAsync, errors, k) && nAsync * Good(batches, k) < numOps
  {
    var g := (numOps - 1) / nAsync;
    batches := seq(g, _ => Batch(true, 0)) + [Batch(false, 0), Batch(false, 0)];
    assert nAsync * g < numOps <= nAsync * g + nAsync;
    if numOps == nAsync * g + nAsync {
      Divides(numOps, nAsync, g + 1);
    }
    forall j: nat | j <= g ensures Good(batches, j) == j && Advanced(batches, j, nAsync) < numOps {
      AllGood(batches, j, nAsync);
      Ordered(nAsync, j, g);
    }
    AllGood(batches, g, nAsync);
    k := ThenFailures(batches, numOps, nAsync, errors, g);
  }

  lemma Divides(n: nat, m: nat, q: nat)
    requires m > 0 && n == m * q
    ensures n % m == 0
  {
    var r := n % m;
    assert n == m * (n / m) + r;
    if q > n / m {
      Ordered(m, n / m + 1, q);
      Distribute(m, n / m);
    } else {
      Ordered(m, q, n / m);
    }
  }

  lemma ThenFailures(batches: seq<Batch>, numOps: nat, nAsync: nat, errors: nat, g: nat) returns (k: nat)
    requires |batches| == g + 2 && !batches[g].success && !batches[g + 1].success && nAsync > 1
    requires Good(batches, g) == g && forall j: nat :: j <= g ==> Advanced(batches, j, nAsync) < numOps
    requires errors < ERROR_MAX
    requires Advanced(batches, g, nAsync) + nAsync >= numOps + if errors + 1 < ERROR_MAX then 0 else 1
    ensures DoneAfter(batches, numOps, nAsync, errors, k) && Good(batches, k) == g
  {
    var advanced := Advanced(batches, g, nAsync);
    assert Advanced(batches, g + 1, nAsync) == advanced + nAsync - 1 && Good(batches, g + 1) == g;
    assert Advanced(batches, g + 2, nAsync) == advanced + 2 * (nAsync - 1) && Good(batches, g + 2) == g;
    k := if advanced + nAsync - 1 >= numOps then g + 1 else g + 2;
  }

  lemma Ordered(m: nat, a: nat, b: nat)
    requires a <= b
    ensures m * a <= m * b
  {
  }

  /** The budget and the number of operations leave no room for a failed batch to count. */
  predicate NoRoom(numOps: nat, nAsync: nat, errors: nat)
    requires nAsync > 0
  {
    nAsync == 1 || numOps == 0 || errors == ERROR_MAX || (errors + 1 == ERROR_MAX && numOps % nAsync == 0)
  }

  lemma NoRoomSafe(batches: seq<Batch>, numOps: nat, nAsync: nat, errors: nat, k: nat)
    requires nAsync > 0 && NoRoom(numOps, nAsync, errors) && DoneAfter(batches, numOps, nAsync, errors, k)
    ensures nAsync * Good(batches, k) >= numOps
  {
    if numOps == 0 {
      NonNegative(nAsync, Good(batches, k));
    } else if nAsync == 1 {
      OneByOneOutcome(batches, numOps, errors, k);
    } else {
      FewBad(batches, k, nAsync);
      if k != Good(batches, k) {
        Rounded(numOps, nAsync, Good(batches, k));
      }
    }
  }

  lemma FewBad(batches: seq<Batch>, k: nat, nAsync: nat)
    requires k <= |batches| && k <= Good(batches, k) + 1
    ensures Advanced(batches, k, nAsync) == nAsync * Good(batches, k) + if k == Good(batches, k) then 0 else nAsync - 1
  {
    Totals(batches, k, nAsync);
  }

  lemma Rounded(n: nat, m: nat, g: nat)
    requires m > 0 && n % m == 0 && m * g + m - 1 >= n
    ensures m * g >= n
  {
    var q := n / m;
    assert n == m * q;
    if g < q {
      Ordered(m, g + 1, q);
      Distribute(m, g);
    } else {
      Ordered(m, q, g);
    }
  }

  /** A loop that is done in time, within what is left of its budget, is sure to have made the writes it was
      asked for exactly when a batch is one write, or there is nothing to write, or at most one error is
      left in the budget and it cannot tell: otherwise a failed batch counts as work. */
  lemma AsyncDoneExactly(numOps: nat, nAsync: nat, errors: nat)
    requires nAsync > 0 && errors <= ERROR_MAX
    ensures (forall batches, k :: DoneAfter(batches, numOps, nAsync, errors, k) ==> nAsync * Good(batches, k) >= numOps)
       <==> NoRoom(numOps, nAsync, errors)
  {
    if NoRoom(numOps, nAsync, errors) {
      forall batches, k | DoneAfter(batches, numOps, nAsync, errors, k) ensures nAsync * Good(batches, k) >= numOps {
        NoRoomSafe(batches, numOps, nAsync, errors, k);
      }
    } else {
      var batches, k := FailuresCount(numOps, nAsync, errors);
    }
  }
}
