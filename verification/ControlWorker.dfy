/** The control server: it queues the functions that report ready until there are enough of them,
    then starts them in waves, in the order of their ids. */
module ControlWorker {
  type Conn = nat

  /** What select hands over: a new connection, a READY message with its id, or the end of a connection. */
  datatype Event = Accepted(conn: Conn) | Ready(conn: Conn, id: int) | Closed(conn: Conn)

  datatype Queued = Queued(id: int, conn: Conn)

  // What has been queued and what has been turned away.

  function Ids(queue: seq<Queued>): set<int> {
    set i | 0 <= i < |queue| :: queue[i].id
  }

  function Queue(events: seq<Event>): seq<Queued> {
    if events == [] then [] else
    var queue, e := Queue(events[..|events| - 1]), events[|events| - 1];
    if e.Ready? && e.id !in Ids(queue) then queue + [Queued(e.id, e.conn)] else queue
  }

  function Aborted(events: seq<Event>): seq<Conn> {
    if events == [] then [] else
    var before, e := events[..|events| - 1], events[|events| - 1];
    if e.Ready? && e.id in Ids(Queue(before)) then Aborted(before) + [e.conn] else Aborted(before)
  }

  /** The sockets the server has closed: of those turned away, and of those that ended. */
  function Shut(events: seq<Event>): set<Conn> {
    if events == [] then {} else
    var before, e := events[..|events| - 1], events[|events| - 1];
    if e.Closed? || (e.Ready? && e.id in Ids(Queue(before))) then Shut(before) + {e.conn} else Shut(before)
  }

  /** The sockets that select looks at, apart from the one that listens. */
  function Watched(events: seq<Event>): multiset<Conn> {
    if events == [] then multiset{} else
    var before, e := events[..|events| - 1], events[|events| - 1];
    match e
    case Accepted(r) => Watched(before) + multiset{r}
    case Closed(r) => Watched(before) - multiset{r}
    case Ready(r, i) => if i in Ids(Queue(before)) then Watched(before) - multiset{r} else Watched(before)
  }

  lemma QueueSnoc(events: seq<Event>, e: Event)
    ensures var queue := Queue(events);
            Queue(events + [e]) == if e.Ready? && e.id !in Ids(queue) then queue + [Queued(e.id, e.conn)] else queue
    ensures Aborted(events + [e])
         == if e.Ready? && e.id in Ids(Queue(events)) then Aborted(events) + [e.conn] else Aborted(events)
    ensures Shut(events + [e])
         == if e.Closed? || (e.Ready? && e.id in Ids(Queue(events))) then Shut(events) + {e.conn} else Shut(events)
  {
    assert (events + [e])[..|events|] == events;
  }

  function Flatten(batches: seq<seq<Event>>): seq<Event> {
    if batches == [] then [] else Flatten(batches[..|batches| - 1]) + batches[|batches| - 1]
  }

  lemma FlattenNext(batches: seq<seq<Event>>, k: nat)
    requires k < |batches|
    ensures Flatten(batches[..k + 1]) == Flatten(batches[..k]) + batches[k]
  {
    assert batches[..k + 1][..k] == batches[..k];
  }

  lemma {:induction false} QueueGrows(events: seq<Event>, more: seq<Event>)
    ensures |Queue(events)| <= |Queue(events + more)|
  {
    if more == [] {
      assert events + more == events;
    } else {
      QueueGrows(events, more[..|more| - 1]);
      assert (events + more)[..|events + more| - 1] == events + more[..|more| - 1];
    }
  }

  lemma {:induction false} FlattenedQueueGrows(batches: seq<seq<Event>>, k: nat)
    requires k <= |batches|
    ensures |Queue(Flatten(batches[..k]))| <= |Queue(Flatten(batches))|
  {
    if k == |batches| {
      assert batches[..k] == batches;
    } else {
      var before := batches[..|batches| - 1];
      FlattenedQueueGrows(before, k);
      assert before[..k] == batches[..k];
      QueueGrows(Flatten(before), batches[|batches| - 1]);
    }
  }

  lemma IdsSnoc(queue: seq<Queued>, q: Queued)
    ensures Ids(queue + [q]) == Ids(queue) + {q.id}
  {
    forall i | i in Ids(queue + [q]) ensures i in Ids(queue) + {q.id} {
    }
    forall i | i in Ids(queue) + {q.id} ensures i in Ids(queue + [q]) {
      if i == q.id {
        assert (queue + [q])[|queue|].id == i;
      } else {
        var k :| 0 <= k < |queue| && queue[k].id == i;
        assert (queue + [q])[k].id == i;
      }
    }
  }

  /** The loop's state after some events; it runs until as many ids are in as are wanted. */
  ghost predicate Handled(events: seq<Event>, target: nat, inputs: multiset<Conn>, ready: seq<Queued>, aborted: seq<Conn>,
                          shut: set<Conn>, ids: set<int>, run: bool) {
    && ready == Queue(events) && aborted == Aborted(events) && shut == Shut(events)
    && ids == Ids(ready) && |ids| == |ready| && inputs == Watched(events)
    && (run <==> !(1 <= target <= |ready|))
  }

  /** One event. */
  method Handle(ghost events: seq<Event>, e: Event, target: nat, inputs: multiset<Conn>,
                ready: seq<Queued>, aborted: seq<Conn>, shut: set<Conn>, ids: set<int>, run: bool)
    returns (newInputs: multiset<Conn>, newReady: seq<Queued>, newAborted: seq<Conn>, newShut: set<Conn>, newIds: set<int>,
             newRun: bool)
    requires Handled(events, target, inputs, ready, aborted, shut, ids, run)
    ensures Handled(events + [e], target, newInputs, newReady, newAborted, newShut, newIds, newRun)
  {
    newInputs, newReady, newAborted, newShut, newIds, newRun := inputs, ready, aborted, shut, ids, run;
    QueueSnoc(events, e);
    assert (events + [e])[..|events|] == events;
    match e
    case Accepted(r) =>
      newInputs := inputs + multiset{r};
    case Closed(r) =>
      newInputs := inputs - multiset{r};
      newShut := shut + {r};
    case Ready(r, i) =>
      if i !in ids {
        IdsSnoc(ready, Queued(i, r));
        newIds := ids + {i};
        newReady := ready + [Queued(i, r)];
        if |newIds| == target {
          newRun := false;
        }
      } else {
        newAborted := aborted + [r];
        newInputs := inputs - multiset{r};
        newShut := shut + {r};
      }
  }

  /** The accept loop. It handles every event of a batch, so it may queue more functions than it
      needs; it ends exactly when enough different ids report at all. */
  method AcceptLoop(target: nat, batches: seq<seq<Event>>)
    returns (ended: bool, ready: seq<Queued>, aborted: seq<Conn>, shut: set<Conn>, used: nat)
    ensures used <= |batches|
    ensures var events := Flatten(batches[..used]);
            ready == Queue(events) && aborted == Aborted(events) && shut == Shut(events)
    ensures ended <==> 1 <= target <= |Queue(Flatten(batches))|
    ensures ended <==> 1 <= target <= |ready|
    ensures ended ==> used > 0 && |Queue(Flatten(batches[..used - 1]))| < target
    ensures !ended ==> used == |batches|
  {
    var inputs: multiset<Conn>, ids: set<int>, run := multiset{}, {}, true;
    ready, aborted, shut, used := [], [], {}, 0;
    assert batches[..0] == [];
    while run && used < |batches|
      invariant used <= |batches|
      invariant Handled(Flatten(batches[..used]), target, inputs, ready, aborted, shut, ids, run)
      invariant !run ==> used > 0 && |Queue(Flatten(batches[..used - 1]))| < target
      decreases |batches| - used
    {
      var readable := batches[used];
      ghost var before := Flatten(batches[..used]);
      assert before + readable[..0] == before;
      for n := 0 to |readable|
        invariant Handled(before + readable[..n], target, inputs, ready, aborted, shut, ids, run)
      {
        assert before + readable[..n + 1] == (before + readable[..n]) + [readable[n]];
        inputs, ready, aborted, shut, ids, run :=
          Handle(before + readable[..n], readable[n], target, inputs, ready, aborted, shut, ids, run);
      }
      assert readable[..|readable|] == readable;
      FlattenNext(batches, used);
      used := used + 1;
    }
    ended := !run;
    FlattenedQueueGrows(batches, used);
    assert used == |batches| ==> batches[..used] == batches;
  }

  // Sorting by id.

  function Place(q: Queued, s: seq<Queued>): seq<Queued> {
    if s == [] || q.id < s[0].id then [q] + s else [s[0]] + Place(q, s[1..])
  }

  function SortedById(s: seq<Queued>): seq<Queued> {
    if s == [] then [] else Place(s[|s| - 1], SortedById(s[..|s| - 1]))
  }

  predicate Ascending(s: seq<Queued>) {
    forall i, j :: 0 <= i < j < |s| ==> s[i].id < s[j].id
  }

  predicate Distinct(s: seq<Queued>) {
    forall i, j :: 0 <= i < j < |s| ==> s[i].id != s[j].id
  }

  lemma {:induction false} PlaceKeeps(q: Queued, s: seq<Queued>)
    ensures multiset(Place(q, s)) == multiset(s) + multiset{q}
  {
    if s == [] {
    } else {
      assert s == [s[0]] + s[1..];
      PlaceKeeps(q, s[1..]);
    }
  }

  lemma {:induction false} PlaceMembers(q: Queued, s: seq<Queued>, x: Queued)
    ensures x in Place(q, s) <==> x in s || x == q
  {
    if s == [] {
    } else {
      PlaceMembers(q, s[1..], x);
    }
  }

  lemma {:induction false} PlaceAscends(q: Queued, s: seq<Queued>)
    requires Ascending(s) && forall x :: x in s ==> x.id != q.id
    ensures Ascending(Place(q, s))
  {
    if s == [] || q.id < s[0].id {
    } else {
      var rest := Place(q, s[1..]);
      PlaceAscends(q, s[1..]);
      forall i | 0 <= i < |rest| ensures s[0].id < rest[i].id {
        PlaceMembers(q, s[1..], rest[i]);
      }
    }
  }

  lemma SameMembers(a: seq<Queued>, b: seq<Queued>, x: Queued)
    requires multiset(a) == multiset(b) && x in a
    ensures x in b
  {
    assert x in multiset(a);
  }

  lemma {:induction false} SortedIsSorted(s: seq<Queued>)
    requires Distinct(s)
    ensures Ascending(SortedById(s)) && multiset(SortedById(s)) == multiset(s)
  {
    if s == [] {
    } else {
      var before, q := s[..|s| - 1], s[|s| - 1];
      SortedIsSorted(before);
      forall x | x in SortedById(before) ensures x.id != q.id {
        SameMembers(SortedById(before), before, x);
      }
      PlaceAscends(q, SortedById(before));
      PlaceKeeps(q, SortedById(before));
      assert s == before + [q];
    }
  }

  lemma {:induction false} QueueIsDistinct(events: seq<Event>)
    ensures Distinct(Queue(events))
  {
    if events == [] {
    } else {
      var queue := Queue(events[..|events| - 1]);
      QueueIsDistinct(events[..|events| - 1]);
      assert forall i :: 0 <= i < |queue| ==> queue[i].id in Ids(queue);
    }
  }

  // Waves.

  lemma WaveFits(width: nat, count: nat, t: nat)
    requires t < count
    ensures t * width + width == (t + 1) * width <= count * width
  {
    assert (count - t - 1) * width >= 0;
    assert count * width == (t + 1) * width + (count - t - 1) * width;
  }

  /** One wave: RUN is sent from place start on, until width functions run or a socket is closed, which
      raises. */
  method SendWave(ready: seq<Queued>, start: nat, width: nat, shut: set<Conn>) returns (wave: seq<Queued>, failed: bool)
    requires start + width <= |ready|
    ensures |wave| <= width && wave == ready[start..start + |wave|] && NoneOf(wave, shut)
    ensures failed <==> |wave| < width
    ensures failed ==> ready[start + |wave|].conn in shut
  {
    wave := [];
    for n := 0 to width
      invariant |wave| == n && wave == ready[start..start + n] && NoneOf(wave, shut)
    {
      if ready[start + n].conn in shut {
        return wave, true;
      }
      wave := wave + [ready[start + n]];
    }
    failed := false;
  }

  predicate NoneOf(wave: seq<Queued>, conns: set<Conn>) {
    forall n :: 0 <= n < |wave| ==> wave[n].conn !in conns
  }

  /** The waves sent: all of them, or up to the first closed socket. */
  ghost predicate Sent(ready: seq<Queued>, width: nat, count: nat, shut: set<Conn>, waves: seq<seq<Queued>>, failed: bool) {
    && (forall t :: 0 <= t < |waves| ==>
          && t * width + |waves[t]| <= |ready| && waves[t] == ready[t * width..t * width + |waves[t]|]
          && NoneOf(waves[t], shut))
    && if failed then
         && 0 < |waves| <= count && (forall t :: 0 <= t < |waves| - 1 ==> |waves[t]| == width)
         && var k := (|waves| - 1) * width + |waves[|waves| - 1]|;
         && 0 <= k < count * width && k < |ready| && ready[k].conn in shut
       else
         |waves| == count && forall t :: 0 <= t < count ==> |waves[t]| == width
  }

  /** The waves: the t-th sends RUN to places t * width up to (t + 1) * width of the sorted queue. */
  method SendWaves(ready: seq<Queued>, width: nat, count: nat, shut: set<Conn>) returns (waves: seq<seq<Queued>>, failed: bool)
    requires count * width <= |ready|
    ensures Sent(ready, width, count, shut, waves, failed)
  {
    waves := [];
    for t := 0 to count
      invariant |waves| == t
      invariant forall u :: 0 <= u < t ==>
                  && |waves[u]| == width && u * width + width <= |ready|
                  && waves[u] == ready[u * width..u * width + width] && NoneOf(waves[u], shut)
    {
      WaveFits(width, count, t);
      var wave;
      wave, failed := SendWave(ready, t * width, width, shut);
      waves := waves + [wave];
      if failed {
        return;
      }
    }
    failed := false;
  }

  lemma QueueSorts(events: seq<Event>)
    ensures var queue, sorted := Queue(events), SortedById(Queue(events));
            Ascending(sorted) && multiset(sorted) == multiset(queue) && |sorted| == |queue|
  {
    var queue, sorted := Queue(events), SortedById(Queue(events));
    QueueIsDistinct(events);
    SortedIsSorted(queue);
    assert |sorted| == |multiset(sorted)| && |queue| == |multiset(queue)|;
  }

  /** control_worker: once enough functions have reported, exactly those with the smallest ids run, each
      once, in consecutive ascending waves; the server is lost when a socket it comes to is closed. */
  method Control(width: nat, count: nat, batches: seq<seq<Event>>)
    returns (ended: bool, failed: bool, waves: seq<seq<Queued>>, aborted: seq<Conn>, used: nat)
    ensures used <= |batches| && aborted == Aborted(Flatten(batches[..used]))
    ensures ended <==> 1 <= count * width <= |Queue(Flatten(batches))|
    ensures ended ==> Outcome(Flatten(batches[..used]), width, count, waves, failed)
    ensures !ended ==> waves == [] && !failed
  {
    var ready, shut;
    ended, ready, aborted, shut, used := AcceptLoop(count * width, batches);
    waves, failed := [], false;
    if ended {
      var sorted := SortedById(ready);
      QueueSorts(Flatten(batches[..used]));
      waves, failed := SendWaves(sorted, width, count, shut);
      SentOutcome(Flatten(batches[..used]), sorted, width, count, waves, failed);
    }
  }

  /** What comes of the waves: RUN is never sent on a closed socket; all are sent exactly if none of their
      sockets is closed, and surely if every connection that was queued stays open. */
  ghost predicate Outcome(events: seq<Event>, width: nat, count: nat, waves: seq<seq<Queued>>, failed: bool) {
    var queue, sorted, shut := Queue(events), SortedById(Queue(events)), Shut(events);
    && Sent(sorted, width, count, shut, waves, failed) && count * width <= |sorted|
    && (failed <==> exists k :: 0 <= k < count * width && sorted[k].conn in shut)
    && (!failed ==> Scheduled(sorted, queue, width, count, waves))
    && (KeepsOpen(events) ==> !failed)
  }

  lemma SentAll(sorted: seq<Queued>, queue: seq<Queued>, width: nat, count: nat, shut: set<Conn>, waves: seq<seq<Queued>>)
    requires Ascending(sorted) && multiset(sorted) == multiset(queue) && count * width <= |queue| == |sorted|
    requires Sent(sorted, width, count, shut, waves, false)
    ensures Scheduled(sorted, queue, width, count, waves)
    ensures forall k :: 0 <= k < count * width ==> sorted[k].conn !in shut
  {
    forall t | 0 <= t < count ensures t * width + width <= |sorted| && waves[t] == sorted[t * width..t * width + width] {
      SentWave(sorted, width, count, shut, waves, t);
    }
    SentOpen(sorted, width, count, shut, waves);
    OpenWaves(sorted, queue, width, count, waves, shut);
  }

  lemma SentWave(sorted: seq<Queued>, width: nat, count: nat, shut: set<Conn>, waves: seq<seq<Queued>>, t: nat)
    requires Sent(sorted, width, count, shut, waves, false) && t < count
    ensures t * width + width <= |sorted| && waves[t] == sorted[t * width..t * width + width]
  {
    assert |waves[t]| == width;
  }

  lemma SentOpen(sorted: seq<Queued>, width: nat, count: nat, shut: set<Conn>, waves: seq<seq<Queued>>)
    requires Sent(sorted, width, count, shut, waves, false)
    ensures |waves| == count && forall t :: 0 <= t < |waves| ==> NoneOf(waves[t], shut)
  {
  }

  lemma SentSome(sorted: seq<Queued>, width: nat, count: nat, shut: set<Conn>, waves: seq<seq<Queued>>)
    requires Sent(sorted, width, count, shut, waves, true) && count * width <= |sorted|
    ensures exists k :: 0 <= k < count * width && sorted[k].conn in shut
  {
  }

  lemma SentOutcome(events: seq<Event>, sorted: seq<Queued>, width: nat, count: nat, waves: seq<seq<Queued>>, failed: bool)
    requires sorted == SortedById(Queue(events)) && count * width <= |Queue(events)|
    requires Sent(sorted, width, count, Shut(events), waves, failed)
    ensures Outcome(events, width, count, waves, failed)
  {
    QueueSorts(events);
    if failed {
      SentSome(sorted, width, count, Shut(events), waves);
    } else {
      SentAll(sorted, Queue(events), width, count, Shut(events), waves);
    }
    if KeepsOpen(events) {
      OpenQueue(events);
      SortedOpen(sorted, Queue(events), Shut(events));
    }
  }

  lemma OpenWaves(sorted: seq<Queued>, queue: seq<Queued>, width: nat, count: nat, waves: seq<seq<Queued>>, shut: set<Conn>)
    requires Scheduled(sorted, queue, width, count, waves) && forall t :: 0 <= t < |waves| ==> NoneOf(waves[t], shut)
    ensures forall k :: 0 <= k < count * width ==> sorted[k].conn !in shut
  {
    forall k | 0 <= k < count * width ensures sorted[k].conn !in shut {
      var u := InWave(width, count, k);
      WavePlace(sorted, queue, width, count, waves, u, k - u * width);
      assert NoneOf(waves[u], shut);
    }
  }

  lemma SortedOpen(sorted: seq<Queued>, queue: seq<Queued>, shut: set<Conn>)
    requires multiset(sorted) == multiset(queue) && NoneOf(queue, shut)
    ensures NoneOf(sorted, shut)
  {
    forall k | 0 <= k < |sorted| ensures sorted[k].conn !in shut {
      SameMembers(sorted, queue, sorted[k]);
      var n :| 0 <= n < |queue| && queue[n] == sorted[k];
    }
  }

  /** The waves cut the first width * count places of the queue in ascending order of id. */
  ghost predicate Scheduled(sorted: seq<Queued>, queue: seq<Queued>, width: nat, count: nat, waves: seq<seq<Queued>>) {
    && Ascending(sorted) && multiset(sorted) == multiset(queue) && count * width <= |queue| == |sorted|
    && |waves| == count
    && forall t :: 0 <= t < count ==> t * width + width <= |sorted| && waves[t] == sorted[t * width..t * width + width]
  }

  lemma InWave(width: nat, count: nat, k: nat) returns (u: nat)
    requires k < count * width
    ensures u < count && u * width <= k < u * width + width
    decreases count
  {
    if k >= (count - 1) * width {
      u := count - 1;
    } else {
      u := InWave(width, count - 1, k);
    }
  }

  lemma WavePlace(sorted: seq<Queued>, queue: seq<Queued>, width: nat, count: nat, waves: seq<seq<Queued>>,
                  t: nat, n: nat)
    requires Scheduled(sorted, queue, width, count, waves) && t < count && n < width
    ensures |waves[t]| == width && t * width + n < count * width <= |sorted| && waves[t][n] == sorted[t * width + n]
  {
    WaveFits(width, count, t);
  }

  /** Whoever runs was queued, and ids ascend within a wave and from wave to wave. */
  lemma RunAscending(sorted: seq<Queued>, queue: seq<Queued>, width: nat, count: nat, waves: seq<seq<Queued>>,
                     t: nat, n: nat, u: nat, m: nat)
    requires Scheduled(sorted, queue, width, count, waves)
    requires t < count && n < width && u < count && m < width && (t < u || (t == u && n < m))
    ensures |waves[t]| == |waves[u]| == width
    ensures waves[t][n] in queue && waves[t][n].id < waves[u][m].id
  {
    WavePlace(sorted, queue, width, count, waves, t, n);
    WavePlace(sorted, queue, width, count, waves, u, m);
    EarlierPlace(width, t, n, u, m);
    assert sorted[t * width + n] in multiset(sorted);
  }

  lemma EarlierPlace(width: nat, t: nat, n: nat, u: nat, m: nat)
    requires n < width && m < width && (t < u || (t == u && n < m))
    ensures 0 <= t * width + n < u * width + m
  {
    if t < u {
      WaveFits(width, u, t);
    }
  }

  /** Whoever is queued and does not run has a larger id than everyone who does. */
  lemma SmallestRun(sorted: seq<Queued>, queue: seq<Queued>, width: nat, count: nat, waves: seq<seq<Queued>>,
                    q: Queued, t: nat, n: nat)
    requires Scheduled(sorted, queue, width, count, waves) && t < count && n < width
    requires q in queue && forall u :: 0 <= u < count ==> q !in waves[u]
    ensures |waves[t]| == width && waves[t][n].id < q.id
  {
    WavePlace(sorted, queue, width, count, waves, t, n);
    SameMembers(queue, sorted, q);
    var k :| 0 <= k < |sorted| && sorted[k] == q;
    WaitsBehind(sorted, queue, width, count, waves, k);
    SmallerFirst(sorted, t * width + n, k);
  }

  lemma SmallerFirst(sorted: seq<Queued>, i: nat, j: nat)
    requires Ascending(sorted) && i < j < |sorted|
    ensures sorted[i].id < sorted[j].id
  {
  }

  lemma WaitsBehind(sorted: seq<Queued>, queue: seq<Queued>, width: nat, count: nat, waves: seq<seq<Queued>>, k: nat)
    requires Scheduled(sorted, queue, width, count, waves)
    requires k < |sorted| && forall u :: 0 <= u < count ==> sorted[k] !in waves[u]
    ensures k >= count * width
  {
    if k < count * width {
      var u := InWave(width, count, k);
      WavePlace(sorted, queue, width, count, waves, u, k - u * width);
      assert false;
    }
  }

  // Who is turned away.

  /** The id has been reported by one of the first i events. */
  predicate Reported(events: seq<Event>, i: nat, id: int)
    requires i <= |events|
  {
    exists j :: 0 <= j < i && events[j].Ready? && events[j].id == id
  }

  /** Event i is the first report of its id, or repeats it. */
  predicate FirstReport(events: seq<Event>, i: nat) {
    i < |events| && events[i].Ready? && !Reported(events, i, events[i].id)
  }

  predicate RepeatedReport(events: seq<Event>, i: nat) {
    i < |events| && events[i].Ready? && Reported(events, i, events[i].id)
  }

  lemma ReportsKept(events: seq<Event>, e: Event, i: nat)
    requires i < |events|
    ensures FirstReport(events + [e], i) <==> FirstReport(events, i)
    ensures RepeatedReport(events + [e], i) <==> RepeatedReport(events, i)
  {
    if events[i].Ready? {
      var id := events[i].id;
      if Reported(events + [e], i, id) {
        var j :| 0 <= j < i && (events + [e])[j].Ready? && (events + [e])[j].id == id;
        assert events[j].Ready? && events[j].id == id;
      }
      if Reported(events, i, id) {
        var j :| 0 <= j < i && events[j].Ready? && events[j].id == id;
        assert (events + [e])[j].Ready? && (events + [e])[j].id == id;
      }
    }
  }

  lemma ReportedSnoc(events: seq<Event>, e: Event, id: int)
    ensures Reported(events + [e], |events|, id) <==> Reported(events, |events|, id)
    ensures Reported(events + [e], |events| + 1, id) <==> Reported(events, |events|, id) || (e.Ready? && e.id == id)
  {
    if Reported(events, |events|, id) {
      var j :| 0 <= j < |events| && events[j].Ready? && events[j].id == id;
      assert (events + [e])[j] == events[j];
    }
    assert (events + [e])[|events|] == e;
  }

  lemma {:induction false} IdsReported(events: seq<Event>, id: int)
    ensures id in Ids(Queue(events)) <==> Reported(events, |events|, id)
  {
    if events == [] {
    } else {
      var before, e := events[..|events| - 1], events[|events| - 1];
      assert events == before + [e];
      IdsReported(before, id);
      ReportedSnoc(before, e, id);
      if e.Ready? {
        IdsSnoc(Queue(before), Queued(e.id, e.conn));
      }
    }
  }

  predicate QueuedBy(events: seq<Event>, q: Queued, i: nat) {
    FirstReport(events, i) && events[i] == Ready(q.conn, q.id)
  }

  predicate AbortedBy(events: seq<Event>, c: Conn, i: nat) {
    RepeatedReport(events, i) && events[i].conn == c
  }

  lemma ByKept(events: seq<Event>, e: Event, q: Queued, c: Conn, i: nat)
    requires i < |events|
    ensures QueuedBy(events + [e], q, i) <==> QueuedBy(events, q, i)
    ensures AbortedBy(events + [e], c, i) <==> AbortedBy(events, c, i)
  {
    ReportsKept(events, e, i);
    assert (events + [e])[i] == events[i];
  }

  /** Who is queued: exactly the first to report an id. */
  lemma {:induction false} QueuedExactly(events: seq<Event>, q: Queued)
    ensures q in Queue(events) <==> exists i: nat :: QueuedBy(events, q, i)
  {
    if events == [] {
      assert forall i: nat :: !QueuedBy(events, q, i);
    } else {
      var before, e := events[..|events| - 1], events[|events| - 1];
      assert events == before + [e];
      QueuedExactly(before, q);
      QueuedStep(before, e, q);
    }
  }

  lemma QueuedStep(before: seq<Event>, e: Event, q: Queued)
    requires q in Queue(before) <==> exists i: nat :: QueuedBy(before, q, i)
    ensures q in Queue(before + [e]) <==> exists i: nat :: QueuedBy(before + [e], q, i)
  {
    QueueSnoc(before, e);
    LastReport(before, e);
    forall i: nat | i < |before| ensures QueuedBy(before + [e], q, i) <==> QueuedBy(before, q, i) {
      ByKept(before, e, q, 0, i);
    }
    assert forall i: nat :: QueuedBy(before + [e], q, i) && i >= |before| ==> i == |before|;
    assert QueuedBy(before + [e], q, |before|) <==> e.Ready? && e.id !in Ids(Queue(before)) && q == Queued(e.id, e.conn);
  }

  lemma LastReport(before: seq<Event>, e: Event)
    ensures FirstReport(before + [e], |before|) <==> e.Ready? && e.id !in Ids(Queue(before))
    ensures RepeatedReport(before + [e], |before|) <==> e.Ready? && e.id in Ids(Queue(before))
  {
    if e.Ready? {
      IdsReported(before, e.id);
      ReportedSnoc(before, e, e.id);
    }
  }

  /** Who is turned away: exactly the connections over which an id is reported again. */
  lemma {:induction false} AbortedExactly(events: seq<Event>, c: Conn)
    ensures c in Aborted(events) <==> exists i: nat :: AbortedBy(events, c, i)
  {
    if events == [] {
      assert forall i: nat :: !AbortedBy(events, c, i);
    } else {
      var before, e := events[..|events| - 1], events[|events| - 1];
      assert events == before + [e];
      AbortedExactly(before, c);
      AbortedStep(before, e, c);
    }
  }

  lemma AbortedStep(before: seq<Event>, e: Event, c: Conn)
    requires c in Aborted(before) <==> exists i: nat :: AbortedBy(before, c, i)
    ensures c in Aborted(before + [e]) <==> exists i: nat :: AbortedBy(before + [e], c, i)
  {
    QueueSnoc(before, e);
    LastReport(before, e);
    forall i: nat | i < |before| ensures AbortedBy(before + [e], c, i) <==> AbortedBy(before, c, i) {
      ByKept(before, e, Queued(0, 0), c, i);
    }
    assert forall i: nat :: AbortedBy(before + [e], c, i) && i >= |before| ==> i == |before|;
    assert AbortedBy(before + [e], c, |before|) <==> e.Ready? && e.id in Ids(Queue(before)) && c == e.conn;
  }

  // Who runs all the same.

  /** No connection is the first to report an id and then reports an id again. */
  ghost predicate NobodyRepeats(events: seq<Event>) {
    forall i: nat, j: nat :: FirstReport(events, i) && RepeatedReport(events, j) ==> events[i].conn != events[j].conn
  }

  /** Nor does one close. */
  ghost predicate KeepsOpen(events: seq<Event>) {
    && NobodyRepeats(events)
    && forall i: nat, j: nat :: FirstReport(events, i) ==> !ClosedBy(events, events[i].conn, j)
  }

  predicate ClosedBy(events: seq<Event>, c: Conn, j: nat) {
    j < |events| && events[j] == Closed(c)
  }

  lemma QueuedConn(events: seq<Event>, i: nat)
    requires FirstReport(events, i)
    ensures Queued(events[i].id, events[i].conn) in Queue(events)
  {
    var q := Queued(events[i].id, events[i].conn);
    QueuedExactly(events, q);
    assert QueuedBy(events, q, i);
  }

  lemma {:induction false} ShutExactly(events: seq<Event>, c: Conn)
    ensures c in Shut(events) <==> c in Aborted(events) || exists j: nat :: ClosedBy(events, c, j)
  {
    if events == [] {
      assert forall j: nat :: !ClosedBy(events, c, j);
    } else {
      var before, e := events[..|events| - 1], events[|events| - 1];
      assert events == before + [e];
      ShutExactly(before, c);
      QueueSnoc(before, e);
      assert ClosedBy(events, c, |before|) <==> e == Closed(c);
      forall j: nat | j < |before| ensures ClosedBy(events, c, j) <==> ClosedBy(before, c, j) {
        assert events[j] == before[j];
      }
      assert forall j: nat :: ClosedBy(events, c, j) && j >= |before| ==> j == |before|;
    }
  }

  ghost predicate AcceptedAt(events: seq<Event>, c: Conn, i: nat) {
    i < |events| && events[i] == Accepted(c)
  }

  /** A socket is accepted once, and reports or ends after that. */
  ghost predicate FromSockets(events: seq<Event>) {
    forall j: nat :: j < |events| ==>
      (events[j].Accepted? <==> forall i: nat :: i < j ==> !AcceptedAt(events, events[j].conn, i))
  }

  ghost predicate WasAccepted(events: seq<Event>, c: Conn) {
    exists i: nat :: AcceptedAt(events, c, i)
  }

  lemma ShutWasAccepted(events: seq<Event>, c: Conn)
    requires FromSockets(events) && c in Shut(events)
    ensures WasAccepted(events, c)
  {
    var j := ShutBy(events, c);
    var i: nat :| i < j && AcceptedAt(events, events[j].conn, i);
  }

  lemma {:induction false} ShutBy(events: seq<Event>, c: Conn) returns (j: nat)
    requires c in Shut(events)
    ensures j < |events| && !events[j].Accepted? && events[j].conn == c
  {
    var before, e := events[..|events| - 1], events[|events| - 1];
    if c in Shut(before) {
      j := ShutBy(before, c);
    } else {
      j := |before|;
    }
  }

  lemma WatchedNext(before: seq<Event>, e: Event, c: Conn, w: nat)
    requires w == Watched(before)[c]
    ensures Watched(before + [e])[c]
         == if e == Accepted(c) then w + 1
            else if w > 0 && e.conn == c && (e.Closed? || (e.Ready? && e.id in Ids(Queue(before)))) then w - 1
            else w
  {
    assert (before + [e])[..|before|] == before;
  }

  /** select looks, once, at exactly the sockets that were accepted and have not been closed. */
  lemma {:induction false} WatchedExactly(events: seq<Event>, c: Conn)
    requires FromSockets(events)
    ensures Watched(events)[c] == if WasAccepted(events, c) && c !in Shut(events) then 1 else 0
  {
    if events == [] {
      assert !WasAccepted(events, c);
    } else {
      var before, e := events[..|events| - 1], events[|events| - 1];
      assert events == before + [e];
      FromSocketsNext(events, before, e);
      WatchedExactly(before, c);
      WatchedStep(before, e, c);
    }
  }

  lemma WatchedStep(before: seq<Event>, e: Event, c: Conn)
    requires FromSockets(before) && (e.Accepted? <==> !WasAccepted(before, e.conn))
    requires Watched(before)[c] == if WasAccepted(before, c) && c !in Shut(before) then 1 else 0
    ensures Watched(before + [e])[c] == if WasAccepted(before + [e], c) && c !in Shut(before + [e]) then 1 else 0
  {
    WatchedNext(before, e, c, Watched(before)[c]);
    AcceptedNext(before, e, c);
    QueueSnoc(before, e);
    if c in Shut(before) {
      ShutWasAccepted(before, c);
    }
  }

  lemma AcceptedNext(before: seq<Event>, e: Event, c: Conn)
    ensures WasAccepted(before + [e], c) <==> e == Accepted(c) || WasAccepted(before, c)
  {
    if i: nat :| AcceptedAt(before, c, i) {
      assert AcceptedAt(before + [e], c, i);
    }
    if i: nat :| AcceptedAt(before + [e], c, i) {
      assert i < |before| ==> AcceptedAt(before, c, i);
    }
    assert e == Accepted(c) ==> AcceptedAt(before + [e], c, |before|);
  }

  /** One more event fits exactly if it accepts a new socket or comes from one accepted before. */
  lemma FromSocketsNext(events: seq<Event>, before: seq<Event>, e: Event)
    requires events == before + [e]
    ensures FromSockets(events) <==> FromSockets(before) && (e.Accepted? <==> !WasAccepted(before, e.conn))
  {
    forall c, i: nat | i < |before| ensures AcceptedAt(events, c, i) <==> AcceptedAt(before, c, i) {
    }
    forall j: nat | j < |before| ensures events[j] == before[j] {
    }
    assert events[|before|] == e;
  }

  function Turned(events: seq<Event>): set<Conn> {
    set c | c in Aborted(events)
  }

  lemma NobodyTurned(events: seq<Event>)
    ensures NoneOf(Queue(events), Turned(events)) <==> NobodyRepeats(events)
  {
    if NobodyRepeats(events) {
      forall n | 0 <= n < |Queue(events)| ensures Queue(events)[n].conn !in Turned(events) {
        var q := Queue(events)[n];
        QueuedExactly(events, q);
        AbortedExactly(events, q.conn);
        var i: nat :| QueuedBy(events, q, i);
        forall j: nat ensures !AbortedBy(events, q.conn, j) {
        }
      }
    }
    if NoneOf(Queue(events), Turned(events)) {
      forall i: nat, j: nat | FirstReport(events, i) && RepeatedReport(events, j) ensures events[i].conn != events[j].conn {
        QueuedConn(events, i);
        AbortedExactly(events, events[j].conn);
        assert AbortedBy(events, events[j].conn, j);
      }
    }
  }

  lemma OpenQueue(events: seq<Event>)
    ensures NoneOf(Queue(events), Shut(events)) <==> KeepsOpen(events)
  {
    NobodyTurned(events);
    forall c ensures c in Shut(events) <==> c in Turned(events) || exists j: nat :: ClosedBy(events, c, j) {
      ShutExactly(events, c);
    }
    if KeepsOpen(events) {
      forall n | 0 <= n < |Queue(events)| ensures Queue(events)[n].conn !in Shut(events) {
        var q := Queue(events)[n];
        QueuedExactly(events, q);
        var i: nat :| QueuedBy(events, q, i);
      }
    }
    if NoneOf(Queue(events), Shut(events)) {
      forall i: nat, j: nat | FirstReport(events, i) && ClosedBy(events, events[i].conn, j) ensures false {
        QueuedConn(events, i);
      }
    }
  }

  /** No choice of waves runs one of the given connections exactly if none of them is queued. */
  lemma NoneScheduled(queue: seq<Queued>, conns: set<Conn>)
    requires Distinct(queue)
    ensures (forall sorted, width, count, waves :: Scheduled(sorted, queue, width, count, waves) ==>
               forall t :: 0 <= t < |waves| ==> NoneOf(waves[t], conns))
       <==> NoneOf(queue, conns)
  {
    if NoneOf(queue, conns) {
      forall sorted, width, count, waves, t | Scheduled(sorted, queue, width, count, waves) && 0 <= t < |waves|
        ensures NoneOf(waves[t], conns)
      {
        WaveOpen(sorted, queue, width, count, waves, t, conns);
      }
    } else {
      var n :| 0 <= n < |queue| && queue[n].conn in conns;
      WholeWave(queue, conns, n);
    }
  }

  lemma WaveOpen(sorted: seq<Queued>, queue: seq<Queued>, width: nat, count: nat, waves: seq<seq<Queued>>, t: nat, conns: set<Conn>)
    requires Scheduled(sorted, queue, width, count, waves) && t < |waves| && NoneOf(queue, conns)
    ensures NoneOf(waves[t], conns)
  {
    SortedOpen(sorted, queue, conns);
    forall n | 0 <= n < |waves[t]| ensures waves[t][n].conn !in conns {
      WavePlace(sorted, queue, width, count, waves, t, n);
    }
  }

  /** All in one wave. */
  lemma WholeWave(queue: seq<Queued>, conns: set<Conn>, n: nat)
    requires Distinct(queue) && n < |queue| && queue[n].conn in conns
    ensures var sorted := SortedById(queue);
            Scheduled(sorted, queue, |queue|, 1, [sorted]) && !NoneOf([sorted][0], conns)
  {
    var sorted := SortedById(queue);
    SortedIsSorted(queue);
    assert |sorted| == |multiset(sorted)| && |queue| == |multiset(queue)|;
    OneWave(sorted, queue);
    SameMembers(queue, sorted, queue[n]);
  }

  lemma OneWave(sorted: seq<Queued>, queue: seq<Queued>)
    requires Ascending(sorted) && multiset(sorted) == multiset(queue) && |sorted| == |queue|
    ensures Scheduled(sorted, queue, |queue|, 1, [sorted])
  {
    assert 0 * |queue| == 0 && sorted[..|queue|] == sorted;
  }

  /** Nobody who was turned away is in a wave, however the waves are chosen, exactly if no connection is the
      first to report an id and also reports an id again. */
  lemma AbortedNeverRunExactly(events: seq<Event>)
    ensures (forall sorted, width, count, waves :: Scheduled(sorted, Queue(events), width, count, waves) ==>
               forall t :: 0 <= t < |waves| ==> NoneOf(waves[t], Turned(events)))
       <==> NobodyRepeats(events)
  {
    QueueIsDistinct(events);
    NoneScheduled(Queue(events), Turned(events));
    NobodyTurned(events);
  }

  /** And all waves can be sent, however they are chosen, exactly if no such connection closes either. */
  lemma AllSentExactly(events: seq<Event>)
    ensures (forall sorted, width, count, waves :: Scheduled(sorted, Queue(events), width, count, waves) ==>
               forall t :: 0 <= t < |waves| ==> NoneOf(waves[t], Shut(events)))
       <==> KeepsOpen(events)
  {
    QueueIsDistinct(events);
    NoneScheduled(Queue(events), Shut(events));
    OpenQueue(events);
  }

  /** A connection that reports an id twice is turned away, and the only wave of one is its own. */
  lemma ReportingTwiceRuns(c: Conn, id: int)
    ensures var events := [Ready(c, id), Ready(c, id)];
            && Aborted(events) == [c] && Shut(events) == {c}
            && Scheduled([Queued(id, c)], Queue(events), 1, 1, [[Queued(id, c)]])
  {
    var e := Ready(c, id);
    QueueSnoc([], e);
    assert [] + [e] == [e];
    IdsSnoc([], Queued(id, c));
    QueueSnoc([e], e);
    assert [e] + [e] == [e, e];
    OneWave([Queued(id, c)], [Queued(id, c)]);
  }
}
