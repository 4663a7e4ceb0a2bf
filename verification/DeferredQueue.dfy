/** The queues of memorymux: requests are buffered, a wait sends the whole buffer as one batch and hands out
    one result. They sit on any client that keeps a few promises. */
module DeferredQueue {
  import opened Common
  import opened KvStore
  import opened Redo
  import opened Attempts
  import opened RedoLoop

  datatype Mux = Mux(writeBuffer: seq<string>, readBuffer: seq<string>, writeResults: seq<string>,
                     readResults: seq<string>, store: Store)

  /** A wait comes with what the attempts at its batch meet. */
  datatype Step =
    | WriteAsync(key: string, value: string)
    | ReadAsync(key: string)
    | WaitWrite(es: seq<Episode>)
    | WaitRead(es: seq<Episode>)

  /** What a step hands to its caller: wait_write raises its result unless it is !ok. */
  datatype Output = Nothing | Raised(error: string) | Value(value: string)

  // One step.

  /** The client the queues sit on: what a put or get of a batch comes to under what its attempts meet, and
      whether an attempt at a put that was given up had put a key. */
  datatype Client = Client(server: Server, send: (KvOp, seq<Command>, seq<Episode>, Store) -> Pass,
                           had: (seq<Command>, seq<Episode>, Store, string) -> bool)

  /** A put that returns leaves the store of one run, and one reply a pair. */
  ghost predicate PutsOnce(kv: Client) {
    forall cs, es, s :: PutOnce(kv.send(Put, cs, es, s), Run(kv.server, Put, cs, s))
  }

  predicate PutOnce(p: Pass, r: Ran) {
    p.replies.Some? ==> p.store == r.store && |p.replies.value| == |r.responses|
  }

  /** Its replies are those of one run, except that a put finds its key there if an attempt that was given
      up had put it. */
  ghost predicate PutsReply(kv: Client) {
    forall cs, es, s, j: nat :: j < |Handed(kv.send(Put, cs, es, s))| <= |cs| ==>
      Handed(kv.send(Put, cs, es, s))[j] == if kv.had(cs, es, s, Key(cs[j])) then "!duplicate_key" else Run(kv.server, Put, cs, s).responses[j]
  }

  /** A get leaves the store alone, and gives each answer on it exactly if that reads like no sign. */
  ghost predicate GetsRead(kv: Client) {
    forall keys, es, s :: GetRead(kv.server, keys, s, kv.send(Get, Group(keys, 1), es, s))
  }

  predicate GetRead(server: Server, keys: seq<string>, s: Store, p: Pass) {
    && p.store == s
    && (p.replies.Some? ==>
          |p.replies.value| == |keys| && forall i :: 0 <= i < |keys| ==> GetReply(p.replies.value[i], Answer(server, keys[i], s)))
  }

  function Handed(p: Pass): seq<string> {
    if p.replies.Some? then p.replies.value else []
  }

  /** The answer to a read on a given store. */
  function Answer(server: Server, k: string, s: Store): string {
    server(Get, [k], Lookup(s, k)).response
  }

  /** The buffered writes sent as one put, if that returns. */
  function FlushWrites(kv: Client, m: Mux, es: seq<Episode>): (Mux, bool) {
    var p := kv.send(Put, Group(m.writeBuffer, 2), es, m.store);
    if p.replies.None? then (m.(store := p.store), false)
    else (m.(writeBuffer := [], writeResults := m.writeResults + p.replies.value, store := p.store), true)
  }

  function FlushReads(kv: Client, m: Mux, es: seq<Episode>): (Mux, bool) {
    var p := kv.send(Get, Group(m.readBuffer, 1), es, m.store);
    if p.replies.None? then (m.(store := p.store), false)
    else (m.(readBuffer := [], readResults := m.readResults + p.replies.value, store := p.store), true)
  }

  /** The object after a step, and what the step hands out if it returns. A wait with nothing outstanding
      is outside the contract of the queues; it does nothing here. */
  function Next(kv: Client, m: Mux, step: Step): (Mux, Option<Output>) {
    match step
    case WriteAsync(k, v) => (m.(writeBuffer := m.writeBuffer + [k, v]), Some(Nothing))
    case ReadAsync(k) => (m.(readBuffer := m.readBuffer + [k]), Some(Nothing))
    case WaitWrite(es) =>
      var (f, returned) := FlushWrites(kv, m, es);
      if !returned then (f, None)
      else if f.writeResults == [] then (f, Some(Nothing))
      else (f.(writeResults := f.writeResults[1..]),
            Some(if f.writeResults[0] != "!ok" then Raised(f.writeResults[0]) else Nothing))
    case WaitRead(es) =>
      var (f, returned) := FlushReads(kv, m, es);
      if !returned then (f, None)
      else if f.readResults == [] then (f, Some(Nothing))
      else (f.(readResults := f.readResults[1..]), Some(Value(f.readResults[0])))
  }

  function Start(s: Store): Mux {
    Mux([], [], [], [], s)
  }

  /** The object after the first n steps, if they all return. */
  function Exec(kv: Client, s: Store, steps: seq<Step>, n: nat): Option<Mux>
    requires n <= |steps|
    decreases n
  {
    if n == 0 then Some(Start(s))
    else match Exec(kv, s, steps, n - 1)
         case None => None
         case Some(m) =>
           var (next, output) := Next(kv, m, steps[n - 1]);
           if output.Some? then Some(next) else None
  }

  /** What step n hands out, if it returns. */
  function OutputAt(kv: Client, s: Store, steps: seq<Step>, n: nat): Option<Output>
    requires n < |steps| && Exec(kv, s, steps, n).Some?
  {
    Next(kv, Exec(kv, s, steps, n).value, steps[n]).1
  }

  // What the caller asked for, read off the run alone.

  /** The writes and read keys issued, how many of them have been sent, and how many waits there were. */
  datatype Issued = Issued(written: seq<Command>, sent: nat, writeWaits: nat, keys: seq<string>, asked: nat, readWaits: nat)

  function Enter(l: Issued, step: Step): Issued {
    match step
    case WriteAsync(k, v) => l.(written := l.written + [[k, v]])
    case ReadAsync(k) => l.(keys := l.keys + [k])
    case WaitWrite(_) => l.(sent := |l.written|, writeWaits := l.writeWaits + 1)
    case WaitRead(_) => l.(asked := |l.keys|, readWaits := l.readWaits + 1)
  }

  function IssuedBy(steps: seq<Step>, n: nat): (l: Issued)
    requires n <= |steps|
    ensures Sound(l)
    decreases n
  {
    if n == 0 then Issued([], 0, 0, [], 0, 0) else Enter(IssuedBy(steps, n - 1), steps[n - 1])
  }

  predicate Sound(l: Issued) {
    l.sent <= |l.written| && l.asked <= |l.keys|
  }

  function Unsent(l: Issued): seq<Command>
    requires Sound(l)
  {
    l.written[l.sent..]
  }

  function Unasked(l: Issued): seq<string>
    requires Sound(l)
  {
    l.keys[l.asked..]
  }

  /** All puts sent, as one run. */
  function Once(server: Server, s: Store, l: Issued): Ran
    requires Sound(l)
  {
    Run(server, Put, l.written[..l.sent], s)
  }

  /** In the first n steps, never more waits than issues. */
  predicate Waits(steps: seq<Step>, n: nat)
    requires n <= |steps|
    decreases n
  {
    n == 0 || (Waits(steps, n - 1) && Due(IssuedBy(steps, n - 1), steps[n - 1]))
  }

  predicate Due(l: Issued, step: Step) {
    (step.WaitWrite? ==> l.writeWaits < |l.written|) && (step.WaitRead? ==> l.readWaits < |l.keys|)
  }

  /** After the first k steps there are at most as many waits as issues, of either kind. */
  predicate KeepsUp(steps: seq<Step>, k: nat)
    requires k <= |steps|
  {
    var l := IssuedBy(steps, k);
    l.writeWaits <= |l.written| && l.readWaits <= |l.keys|
  }

  lemma {:induction false} WaitsExactly(steps: seq<Step>, n: nat)
    requires n <= |steps|
    ensures Waits(steps, n) <==> forall k: nat :: k <= n ==> KeepsUp(steps, k)
    decreases n
  {
    if n == 0 {
    } else {
      WaitsExactly(steps, n - 1);
      assert KeepsUp(steps, n - 1) ==> (KeepsUp(steps, n) <==> Due(IssuedBy(steps, n - 1), steps[n - 1]));
    }
  }

  // What comes back.

  /** The results of all writes and the answers to all reads that have been sent, in issue order. */
  datatype Got = Got(results: seq<string>, answers: seq<string>)

  /** What a wait makes of the writes or reads it sends. */
  function SendingNow(kv: Client, s: Store, l: Issued, step: Step): Pass
    requires Sound(l) && (step.WaitWrite? || step.WaitRead?)
  {
    if step.WaitWrite? then kv.send(Put, Unsent(l), step.es, Once(kv.server, s, l).store)
    else kv.send(Get, Group(Unasked(l), 1), step.es, Once(kv.server, s, l).store)
  }

  function Collect(kv: Client, s: Store, l: Issued, g: Got, step: Step): Got
    requires Sound(l)
  {
    match step
    case WaitWrite(_) => g.(results := g.results + Handed(SendingNow(kv, s, l, step)))
    case WaitRead(_) => g.(answers := g.answers + Handed(SendingNow(kv, s, l, step)))
    case _ => g
  }

  function GotBy(kv: Client, s: Store, steps: seq<Step>, n: nat): Got
    requires n <= |steps|
    decreases n
  {
    if n == 0 then Got([], [])
    else Collect(kv, s, IssuedBy(steps, n - 1), GotBy(kv, s, steps, n - 1), steps[n - 1])
  }

  /** Nothing is lost, nothing is answered twice: what was issued is what was handed out, what is
      queued and what is buffered, in this order. */
  ghost predicate WritesAccounted(kv: Client, s: Store, l: Issued, g: Got, m: Mux)
    requires Sound(l)
  {
    && m.store == Once(kv.server, s, l).store
    && Group(m.writeBuffer, 2) == Unsent(l) && |m.writeBuffer| == 2 * |Unsent(l)|
    && l.writeWaits <= l.sent == |g.results| && m.writeResults == g.results[l.writeWaits..]
  }

  ghost predicate ReadsAccounted(l: Issued, g: Got, m: Mux)
    requires Sound(l)
  {
    && m.readBuffer == Unasked(l)
    && l.readWaits <= l.asked == |g.answers| && m.readResults == g.answers[l.readWaits..]
  }

  ghost predicate Accounted(kv: Client, s: Store, l: Issued, g: Got, m: Mux)
    requires Sound(l)
  {
    WritesAccounted(kv, s, l, g, m) && ReadsAccounted(l, g, m)
  }

  // One step accounts for one step.

  lemma GetKeepsWrites(kv: Client, m: Mux, es: seq<Episode>)
    requires GetsRead(kv)
    ensures var f := Next(kv, m, WaitRead(es)).0;
            f.store == m.store && f.writeBuffer == m.writeBuffer && f.writeResults == m.writeResults
  {
    assert GetRead(kv.server, m.readBuffer, m.store, kv.send(Get, Group(m.readBuffer, 1), es, m.store));
  }

  /** Reading does not disturb the writes, nor writing the reads. */
  lemma WritesUndisturbed(kv: Client, s: Store, l: Issued, g: Got, m: Mux, step: Step)
    requires Sound(l) && WritesAccounted(kv, s, l, g, m)
    requires step.ReadAsync? || (step.WaitRead? && GetsRead(kv))
    ensures WritesAccounted(kv, s, Enter(l, step), Collect(kv, s, l, g, step), Next(kv, m, step).0)
  {
    if step.WaitRead? {
      GetKeepsWrites(kv, m, step.es);
    }
  }

  lemma ReadsUndisturbed(kv: Client, s: Store, l: Issued, g: Got, m: Mux, step: Step)
    requires Sound(l) && ReadsAccounted(l, g, m) && (step.WriteAsync? || step.WaitWrite?)
    ensures ReadsAccounted(Enter(l, step), Collect(kv, s, l, g, step), Next(kv, m, step).0)
  {
  }

  lemma WriteAsyncAccounted(kv: Client, s: Store, l: Issued, g: Got, m: Mux, step: Step)
    requires Sound(l) && step.WriteAsync? && WritesAccounted(kv, s, l, g, m)
    ensures WritesAccounted(kv, s, Enter(l, step), g, Next(kv, m, step).0)
  {
    var c := [step.key, step.value];
    assert (l.written + [c])[..l.sent] == l.written[..l.sent] && (l.written + [c])[l.sent..] == l.written[l.sent..] + [c];
    GroupAppend(m.writeBuffer, c);
  }

  lemma ReadAsyncAccounted(kv: Client, l: Issued, g: Got, m: Mux, step: Step)
    requires Sound(l) && step.ReadAsync? && ReadsAccounted(l, g, m)
    ensures ReadsAccounted(Enter(l, step), g, Next(kv, m, step).0)
  {
  }

  lemma Queued(earlier: seq<string>, later: seq<string>, k: nat)
    requires k <= |earlier|
    ensures earlier[k..] + later == (earlier + later)[k..]
  {
  }

  /** Sending the buffer leaves the store of all writes issued, however often it is resent, and one result
      for each. */
  lemma SentRun(kv: Client, s: Store, l: Issued, step: Step)
    requires PutsOnce(kv) && GetsRead(kv) && Sound(l) && step.WaitWrite? && SendingNow(kv, s, l, step).replies.Some?
    ensures SendingNow(kv, s, l, step).store == Run(kv.server, Put, l.written, s).store
    ensures Once(kv.server, s, Enter(l, step)) == Run(kv.server, Put, l.written, s)
    ensures |Handed(SendingNow(kv, s, l, step))| == |Unsent(l)|
  {
    assert PutOnce(SendingNow(kv, s, l, step), Run(kv.server, Put, Unsent(l), Once(kv.server, s, l).store));
    assert l.written[..l.sent] + Unsent(l) == l.written && l.written[..|l.written|] == l.written;
    RunConcat(kv.server, Put, l.written[..l.sent], Unsent(l), s);
  }

  lemma WaitWriteAccounted(kv: Client, s: Store, l: Issued, g: Got, m: Mux, step: Step)
    requires PutsOnce(kv) && GetsRead(kv) && Sound(l) && step.WaitWrite? && WritesAccounted(kv, s, l, g, m) && Due(l, step)
    requires Next(kv, m, step).1.Some?
    ensures WritesAccounted(kv, s, Enter(l, step), Collect(kv, s, l, g, step), Next(kv, m, step).0)
    ensures var r := Collect(kv, s, l, g, step).results[l.writeWaits];
            Next(kv, m, step).1 == Some(if r == "!ok" then Nothing else Raised(r))
  {
    SentRun(kv, s, l, step);
    Queued(g.results, Handed(SendingNow(kv, s, l, step)), l.writeWaits);
  }

  lemma WaitReadAccounted(kv: Client, s: Store, l: Issued, g: Got, m: Mux, step: Step)
    requires GetsRead(kv) && Sound(l) && step.WaitRead? && ReadsAccounted(l, g, m) && Due(l, step)
    requires m.store == Once(kv.server, s, l).store && Next(kv, m, step).1.Some?
    ensures ReadsAccounted(Enter(l, step), Collect(kv, s, l, g, step), Next(kv, m, step).0)
    ensures Next(kv, m, step).1 == Some(Value(Collect(kv, s, l, g, step).answers[l.readWaits]))
  {
    assert GetRead(kv.server, m.readBuffer, m.store, kv.send(Get, Group(m.readBuffer, 1), step.es, m.store));
    Queued(g.answers, Handed(SendingNow(kv, s, l, step)), l.readWaits);
  }

  lemma AccountedNext(kv: Client, s: Store, l: Issued, g: Got, m: Mux, step: Step)
    requires PutsOnce(kv) && GetsRead(kv) && Sound(l) && Accounted(kv, s, l, g, m) && Due(l, step)
    requires Next(kv, m, step).1.Some?
    ensures Accounted(kv, s, Enter(l, step), Collect(kv, s, l, g, step), Next(kv, m, step).0)
  {
    match step
    case WriteAsync(_, _) =>
      WriteAsyncAccounted(kv, s, l, g, m, step);
      ReadsUndisturbed(kv, s, l, g, m, step);
    case ReadAsync(_) =>
      ReadAsyncAccounted(kv, l, g, m, step);
      WritesUndisturbed(kv, s, l, g, m, step);
    case WaitWrite(_) =>
      WaitWriteAccounted(kv, s, l, g, m, step);
      ReadsUndisturbed(kv, s, l, g, m, step);
    case WaitRead(_) =>
      WaitReadAccounted(kv, s, l, g, m, step);
      WritesUndisturbed(kv, s, l, g, m, step);
  }

  lemma {:induction false} AlwaysAccounted(kv: Client, s: Store, steps: seq<Step>, n: nat)
    requires PutsOnce(kv) && GetsRead(kv) && n <= |steps| && Waits(steps, n) && Exec(kv, s, steps, n).Some?
    ensures Accounted(kv, s, IssuedBy(steps, n), GotBy(kv, s, steps, n), Exec(kv, s, steps, n).value)
    decreases n
  {
    if n == 0 {
    } else {
      AlwaysAccounted(kv, s, steps, n - 1);
      AccountedNext(kv, s, IssuedBy(steps, n - 1), GotBy(kv, s, steps, n - 1), Exec(kv, s, steps, n - 1).value,
                    steps[n - 1]);
    }
  }

  // When a wait returns.

  lemma WaitSends(kv: Client, s: Store, l: Issued, g: Got, m: Mux, step: Step)
    requires Sound(l) && Accounted(kv, s, l, g, m) && (step.WaitWrite? || step.WaitRead?)
    ensures Next(kv, m, step).1.Some? <==> SendingNow(kv, s, l, step).replies.Some?
  {
  }

  /** A wait returns exactly if its put or get does. */
  lemma WaitReturns(kv: Client, s: Store, steps: seq<Step>, n: nat, step: Step)
    requires PutsOnce(kv) && GetsRead(kv) && n <= |steps| && Waits(steps, n) && Exec(kv, s, steps, n).Some?
    requires step.WaitWrite? || step.WaitRead?
    ensures Next(kv, Exec(kv, s, steps, n).value, step).1.Some? <==> SendingNow(kv, s, IssuedBy(steps, n), step).replies.Some?
  {
    AlwaysAccounted(kv, s, steps, n);
    WaitSends(kv, s, IssuedBy(steps, n), GotBy(kv, s, steps, n), Exec(kv, s, steps, n).value, step);
  }

  /** If step k waits, what it sends is answered. */
  predicate Answered(kv: Client, s: Store, steps: seq<Step>, k: nat)
    requires k < |steps|
  {
    steps[k].WaitWrite? || steps[k].WaitRead? ==> SendingNow(kv, s, IssuedBy(steps, k), steps[k]).replies.Some?
  }

  /** A run goes through exactly if every put and get it sends is answered. */
  lemma {:induction false} RunReturns(kv: Client, s: Store, steps: seq<Step>, n: nat)
    requires PutsOnce(kv) && GetsRead(kv) && n <= |steps| && Waits(steps, n)
    ensures Exec(kv, s, steps, n).Some? <==> forall k: nat :: k < n ==> Answered(kv, s, steps, k)
    decreases n
  {
    if n == 0 {
    } else {
      RunReturns(kv, s, steps, n - 1);
      if Exec(kv, s, steps, n - 1).Some? {
        StepReturns(kv, s, steps, n - 1);
      }
    }
  }

  lemma StepReturns(kv: Client, s: Store, steps: seq<Step>, n: nat)
    requires PutsOnce(kv) && GetsRead(kv) && n < |steps| && Waits(steps, n) && Exec(kv, s, steps, n).Some?
    ensures Exec(kv, s, steps, n + 1).Some? <==> Answered(kv, s, steps, n)
  {
    if steps[n].WaitWrite? || steps[n].WaitRead? {
      WaitReturns(kv, s, steps, n, steps[n]);
    }
  }

  // What is handed out.

  /** The first wait_write after the i-th write was issued is step p. */
  predicate SendPoint(steps: seq<Step>, i: nat, p: nat) {
    p < |steps| && steps[p].WaitWrite? && IssuedBy(steps, p).sent <= i < |IssuedBy(steps, p).written|
  }

  predicate AskPoint(steps: seq<Step>, i: nat, p: nat) {
    p < |steps| && steps[p].WaitRead? && IssuedBy(steps, p).asked <= i < |IssuedBy(steps, p).keys|
  }

  /** An attempt that was given up had put the key of the i-th write when that was sent. */
  predicate PutBefore(kv: Client, s: Store, steps: seq<Step>, i: nat, p: nat)
    requires SendPoint(steps, i, p)
  {
    var l := IssuedBy(steps, p);
    kv.had(Unsent(l), steps[p].es, Once(kv.server, s, l).store, Key(l.written[i]))
  }

  lemma {:induction false} IssuedGrows(steps: seq<Step>, p: nat, n: nat)
    requires p <= n <= |steps|
    ensures IssuedBy(steps, p).written <= IssuedBy(steps, n).written && IssuedBy(steps, p).keys <= IssuedBy(steps, n).keys
    decreases n
  {
    if p == n {
    } else {
      IssuedGrows(steps, p, n - 1);
    }
  }

  lemma WaitCollects(kv: Client, s: Store, steps: seq<Step>, n: nat)
    requires PutsOnce(kv) && GetsRead(kv) && n < |steps| && Waits(steps, n + 1) && Exec(kv, s, steps, n + 1).Some?
    requires steps[n].WaitWrite? || steps[n].WaitRead?
    ensures SendingNow(kv, s, IssuedBy(steps, n), steps[n]).replies.Some?
    ensures |GotBy(kv, s, steps, n).results| == IssuedBy(steps, n).sent
    ensures |GotBy(kv, s, steps, n).answers| == IssuedBy(steps, n).asked
  {
    AlwaysAccounted(kv, s, steps, n);
    WaitSends(kv, s, IssuedBy(steps, n), GotBy(kv, s, steps, n), Exec(kv, s, steps, n).value, steps[n]);
  }

  /** The reply to the i-th write: that of one run of all puts issued by then, except that it finds its
      key there if an attempt that was given up had put it. */
  function Expected(kv: Client, s: Store, steps: seq<Step>, i: nat, p: nat): string
    requires SendPoint(steps, i, p)
  {
    if PutBefore(kv, s, steps, i, p) then "!duplicate_key"
    else Run(kv.server, Put, IssuedBy(steps, p).written, s).responses[i]
  }

  /** One write sent in a batch that may be resent. */
  lemma SentResult(kv: Client, s: Store, l: Issued, step: Step, i: nat)
    requires PutsOnce(kv) && GetsRead(kv) && PutsReply(kv) && Sound(l) && step.WaitWrite? && l.sent <= i < |l.written|
    requires SendingNow(kv, s, l, step).replies.Some?
    ensures |SendingNow(kv, s, l, step).replies.value| == |Unsent(l)|
    ensures SendingNow(kv, s, l, step).replies.value[i - l.sent]
         == if kv.had(Unsent(l), step.es, Once(kv.server, s, l).store, Key(l.written[i])) then "!duplicate_key"
            else Run(kv.server, Put, l.written, s).responses[i]
  {
    Halves(l.written, l.sent, i);
    assert PutOnce(SendingNow(kv, s, l, step), Run(kv.server, Put, Unsent(l), Once(kv.server, s, l).store));
    RunLater(kv.server, Put, l.written, l.written[..l.sent], Unsent(l), s, i - l.sent);
    assert Handed(SendingNow(kv, s, l, step))[i - l.sent] == SendingNow(kv, s, l, step).replies.value[i - l.sent];
  }

  lemma Halves(w: seq<Command>, k: nat, i: nat)
    requires k <= i < |w|
    ensures w == w[..k] + w[k..] && w[i] == w[k..][i - k]
  {
  }

  lemma ResultNow(kv: Client, s: Store, steps: seq<Step>, n: nat, i: nat)
    requires PutsOnce(kv) && GetsRead(kv) && PutsReply(kv) && n < |steps| && Waits(steps, n + 1) && Exec(kv, s, steps, n + 1).Some?
    requires SendPoint(steps, i, n)
    ensures i < |GotBy(kv, s, steps, n + 1).results|
    ensures GotBy(kv, s, steps, n + 1).results[i] == Expected(kv, s, steps, i, n)
  {
    var l := IssuedBy(steps, n);
    WaitCollects(kv, s, steps, n);
    SentResult(kv, s, l, steps[n], i);
  }

  lemma GotGrows(kv: Client, s: Store, steps: seq<Step>, n: nat)
    requires n < |steps|
    ensures GotBy(kv, s, steps, n).results <= GotBy(kv, s, steps, n + 1).results
    ensures GotBy(kv, s, steps, n).answers <= GotBy(kv, s, steps, n + 1).answers
  {
  }

  /** The result of a write, whenever it is handed out. */
  lemma {:induction false} ResultMeaning(kv: Client, s: Store, steps: seq<Step>, n: nat, i: nat) returns (p: nat)
    requires PutsOnce(kv) && GetsRead(kv) && PutsReply(kv) && n <= |steps| && Waits(steps, n) && Exec(kv, s, steps, n).Some?
    requires i < IssuedBy(steps, n).sent
    ensures p < n && SendPoint(steps, i, p) && i < |GotBy(kv, s, steps, n).results|
    ensures GotBy(kv, s, steps, n).results[i] == Expected(kv, s, steps, i, p)
    decreases n
  {
    if i < IssuedBy(steps, n - 1).sent {
      p := ResultMeaning(kv, s, steps, n - 1, i);
      GotGrows(kv, s, steps, n - 1);
    } else {
      p := n - 1;
      ResultNow(kv, s, steps, p, i);
    }
  }

  function Raise(r: string): Output {
    if r == "!ok" then Nothing else Raised(r)
  }

  /** A wait_write hands out the oldest result. */
  lemma WriteOutput(kv: Client, s: Store, steps: seq<Step>, n: nat)
    requires PutsOnce(kv) && GetsRead(kv) && n < |steps| && steps[n].WaitWrite? && Waits(steps, n + 1)
    requires Exec(kv, s, steps, n + 1).Some?
    ensures var l := IssuedBy(steps, n);
            && l.writeWaits < |l.written| == |GotBy(kv, s, steps, n + 1).results|
            && OutputAt(kv, s, steps, n) == Some(Raise(GotBy(kv, s, steps, n + 1).results[l.writeWaits]))
  {
    AlwaysAccounted(kv, s, steps, n);
    WaitWriteAccounted(kv, s, IssuedBy(steps, n), GotBy(kv, s, steps, n), Exec(kv, s, steps, n).value, steps[n]);
  }

  /** Later puts do not change an earlier reply. */
  lemma OnceReply(server: Server, s: Store, steps: seq<Step>, p: nat, n: nat, i: nat)
    requires Standard(server) && PutReplies(server) && p <= n <= |steps| && i < |IssuedBy(steps, p).written|
    ensures i < |IssuedBy(steps, n).written|
    ensures var r := Run(server, Put, IssuedBy(steps, n).written, s).responses[i];
            Run(server, Put, IssuedBy(steps, p).written, s).responses[i] == r && (r == "!ok" || r == "!duplicate_key")
  {
    IssuedGrows(steps, p, n);
    PrefixReply(server, Put, IssuedBy(steps, p).written, IssuedBy(steps, n).written, s, i);
    PutReply(server, IssuedBy(steps, n).written, s, i);
  }

  /** The i-th wait_write, in every legal run, raises exactly when the i-th put of a run of all puts in
      issue order is not answered !ok, or its key was put by an attempt that was given up. */
  lemma WriteFifo(kv: Client, s: Store, steps: seq<Step>, n: nat) returns (p: nat)
    requires Standard(kv.server) && PutReplies(kv.server) && PutsOnce(kv) && GetsRead(kv) && PutsReply(kv)
    requires n < |steps| && steps[n].WaitWrite? && Waits(steps, n + 1) && Exec(kv, s, steps, n + 1).Some?
    ensures var l := IssuedBy(steps, n);
            var i := l.writeWaits;
            && p <= n && SendPoint(steps, i, p) && i < |l.written|
            && OutputAt(kv, s, steps, n)
            == Some(if Run(kv.server, Put, l.written, s).responses[i] == "!ok" && !PutBefore(kv, s, steps, i, p) then Nothing
                    else Raised("!duplicate_key"))
  {
    var i := IssuedBy(steps, n).writeWaits;
    WriteOutput(kv, s, steps, n);
    p := ResultMeaning(kv, s, steps, n + 1, i);
    OnceReply(kv.server, s, steps, p, n, i);
  }

  /** What is returned for a read, against the answer on the store of all writes sent when the first wait
      after it was issued sent it: that answer exactly if it reads like no sign. */
  ghost predicate Reads(kv: Client, s: Store, steps: seq<Step>, i: nat, p: nat, value: string) {
    && AskPoint(steps, i, p)
    && GetReply(value, Answer(kv.server, IssuedBy(steps, p).keys[i], Once(kv.server, s, IssuedBy(steps, p)).store))
  }

  lemma SentAnswer(kv: Client, s: Store, l: Issued, step: Step, i: nat)
    requires GetsRead(kv) && Sound(l) && step.WaitRead? && l.asked <= i < |l.keys| && SendingNow(kv, s, l, step).replies.Some?
    ensures |Handed(SendingNow(kv, s, l, step))| == |Unasked(l)|
    ensures GetReply(Handed(SendingNow(kv, s, l, step))[i - l.asked], Answer(kv.server, l.keys[i], Once(kv.server, s, l).store))
  {
    assert GetRead(kv.server, Unasked(l), Once(kv.server, s, l).store, SendingNow(kv, s, l, step));
    assert l.keys[i] == Unasked(l)[i - l.asked];
  }

  lemma AnswerNow(kv: Client, s: Store, steps: seq<Step>, n: nat, i: nat)
    requires PutsOnce(kv) && GetsRead(kv) && n < |steps| && Waits(steps, n + 1) && Exec(kv, s, steps, n + 1).Some?
    requires AskPoint(steps, i, n)
    ensures i < |GotBy(kv, s, steps, n + 1).answers| && Reads(kv, s, steps, i, n, GotBy(kv, s, steps, n + 1).answers[i])
  {
    var l, now := IssuedBy(steps, n), Handed(SendingNow(kv, s, IssuedBy(steps, n), steps[n]));
    WaitCollects(kv, s, steps, n);
    SentAnswer(kv, s, l, steps[n], i);
    AnswersCollected(kv, s, steps, n, l.asked, now, i);
  }

  lemma AnswersCollected(kv: Client, s: Store, steps: seq<Step>, n: nat, k: nat, now: seq<string>, i: nat)
    requires n < |steps| && steps[n].WaitRead? && now == Handed(SendingNow(kv, s, IssuedBy(steps, n), steps[n]))
    requires |GotBy(kv, s, steps, n).answers| == k <= i < k + |now|
    ensures i < |GotBy(kv, s, steps, n + 1).answers| && GotBy(kv, s, steps, n + 1).answers[i] == now[i - k]
  {
  }

  lemma {:induction false} AnswerMeaning(kv: Client, s: Store, steps: seq<Step>, n: nat, i: nat) returns (p: nat)
    requires PutsOnce(kv) && GetsRead(kv) && n <= |steps| && Waits(steps, n) && Exec(kv, s, steps, n).Some? && i < IssuedBy(steps, n).asked
    ensures p < n && i < |GotBy(kv, s, steps, n).answers| && Reads(kv, s, steps, i, p, GotBy(kv, s, steps, n).answers[i])
    decreases n
  {
    if i < IssuedBy(steps, n - 1).asked {
      p := AnswerMeaning(kv, s, steps, n - 1, i);
      GotGrows(kv, s, steps, n - 1);
    } else {
      p := n - 1;
      AnswerNow(kv, s, steps, p, i);
    }
  }

  /** A wait_read hands out the oldest answer. */
  lemma ReadOutput(kv: Client, s: Store, steps: seq<Step>, n: nat)
    requires PutsOnce(kv) && GetsRead(kv) && n < |steps| && steps[n].WaitRead? && Waits(steps, n + 1)
    requires Exec(kv, s, steps, n + 1).Some?
    ensures var l := IssuedBy(steps, n);
            && l.readWaits < |l.keys| == |GotBy(kv, s, steps, n + 1).answers|
            && OutputAt(kv, s, steps, n) == Some(Value(GotBy(kv, s, steps, n + 1).answers[l.readWaits]))
  {
    AlwaysAccounted(kv, s, steps, n);
    WaitReadAccounted(kv, s, IssuedBy(steps, n), GotBy(kv, s, steps, n), Exec(kv, s, steps, n).value, steps[n]);
  }

  /** The i-th wait_read, in every legal run, returns the answer for the i-th read_async key exactly if
      that reads like no sign. */
  lemma ReadFifo(kv: Client, s: Store, steps: seq<Step>, n: nat) returns (p: nat)
    requires PutsOnce(kv) && GetsRead(kv) && n < |steps| && steps[n].WaitRead? && Waits(steps, n + 1)
    requires Exec(kv, s, steps, n + 1).Some?
    ensures var l := IssuedBy(steps, n);
            && p <= n && AskPoint(steps, l.readWaits, p) && l.readWaits < |l.keys|
            && var answer := Answer(kv.server, l.keys[l.readWaits], Once(kv.server, s, IssuedBy(steps, p)).store);
            && answer != MOVED
            && (OutputAt(kv, s, steps, n) == Some(Value(answer)) <==> Plain(answer))
  {
    var l := IssuedBy(steps, n);
    ReadOutput(kv, s, steps, n);
    p := AnswerMeaning(kv, s, steps, n + 1, l.readWaits);
    KeyKept(steps, p, n, l.readWaits);
    ValueReturned(OutputAt(kv, s, steps, n), GotBy(kv, s, steps, n + 1).answers[l.readWaits],
                  Answer(kv.server, l.keys[l.readWaits], Once(kv.server, s, IssuedBy(steps, p)).store));
  }

  lemma KeyKept(steps: seq<Step>, p: nat, n: nat, i: nat)
    requires p <= n <= |steps| && i < |IssuedBy(steps, p).keys|
    ensures i < |IssuedBy(steps, n).keys| && IssuedBy(steps, p).keys[i] == IssuedBy(steps, n).keys[i]
  {
    IssuedGrows(steps, p, n);
  }

  lemma ValueReturned(output: Option<Output>, value: string, answer: string)
    requires output == Some(Value(value)) && GetReply(value, answer)
    ensures answer != MOVED && (output == Some(Value(answer)) <==> Plain(answer))
  {
  }
}
