/** One batch of the asynchronous benchmark on memorymux: n writes issued, then n waits, up to the first that
    raises. The results left over by a batch that failed are the first that the next one sees. */
module AsyncBatch {
  import opened Common
  import opened KvStore
  import opened Attempts
  import opened RedoLoop
  import opened DeferredQueue
  import opened MemoryMux

  /** The first of n results that is not !ok. */
  function FirstBad(q: seq<string>, n: nat): (i: nat)
    requires n <= |q|
    ensures i <= n && (i < n ==> q[i] != "!ok")
    ensures forall j :: 0 <= j < i ==> q[j] == "!ok"
  {
    if n == 0 || q[0] != "!ok" then 0 else 1 + FirstBad(q[1..], n - 1)
  }

  predicate AllOk(q: seq<string>) {
    forall j :: 0 <= j < |q| ==> q[j] == "!ok"
  }

  /** How many results a batch of n waits takes. */
  function Taken(q: seq<string>, n: nat): (k: nat)
    requires n <= |q|
    ensures k <= n
  {
    var i := FirstBad(q, n);
    if i < n then i + 1 else n
  }

  function Flat(pairs: seq<Command>): seq<string> {
    if pairs == [] then [] else Flat(pairs[..|pairs| - 1]) + pairs[|pairs| - 1]
  }

  predicate Pairs(pairs: seq<Command>) {
    forall i :: 0 <= i < |pairs| ==> |pairs[i]| == 2
  }

  lemma {:induction false} FlatGroups(pairs: seq<Command>)
    requires Pairs(pairs)
    ensures Group(Flat(pairs), 2) == pairs && |Flat(pairs)| == 2 * |pairs|
  {
    if pairs == [] {
    } else {
      FlatGroups(pairs[..|pairs| - 1]);
      GroupAppend(Flat(pairs[..|pairs| - 1]), pairs[|pairs| - 1]);
    }
  }

  lemma FlatSnoc(pairs: seq<Command>, c: Command)
    ensures Flat(pairs + [c]) == Flat(pairs) + c
  {
    assert (pairs + [c])[..|pairs|] == pairs;
  }

  lemma FlatNext(pairs: seq<Command>, j: nat)
    requires Pairs(pairs) && j < |pairs|
    ensures Flat(pairs[..j + 1]) == Flat(pairs[..j]) + [pairs[j][0], pairs[j][1]]
  {
    assert pairs[..j + 1] == pairs[..j] + [pairs[j]];
    FlatSnoc(pairs[..j], pairs[j]);
  }

  /** The writes of a batch, issued. */
  method Issue(mux: MemoryMuxClient, pairs: seq<Command>)
    requires mux.Valid() && mux.writes == [] && Pairs(pairs)
    modifies mux
    ensures mux.Valid() && mux.State() == old(mux.State()).(writeBuffer := Flat(pairs))
  {
    for j := 0 to |pairs|
      invariant mux.Valid() && mux.State() == old(mux.State()).(writeBuffer := Flat(pairs[..j]))
    {
      FlatNext(pairs, j);
      mux.DoWriteAsync(pairs[j][0], pairs[j][1]);
    }
    assert pairs[..|pairs|] == pairs;
  }

  function Raising(r: string): Output {
    if r != "!ok" then Raised(r) else Nothing
  }

  /** What the first wait of a batch makes of the results left over and its own. */
  lemma FirstWait(kv: Client, m: Mux, pairs: seq<Command>, es: seq<Episode>, p: Pass)
    requires Pairs(pairs) && m.writeBuffer == [] && p == kv.send(Put, pairs, es, m.store)
    ensures var step := Next(kv, m.(writeBuffer := Flat(pairs)), WaitWrite(es));
            && (p.replies.None? ==> step.1 == None)
            && (p.replies.Some? && p.replies.value != [] ==>
                  var q := m.writeResults + p.replies.value;
                  q != [] && step == (m.(store := p.store, writeResults := q[1..]), Some(Raising(q[0]))))
  {
    FlatGroups(pairs);
  }

  /** A later wait finds the buffer empty. */
  lemma LaterWait(kv: Client, m: Mux, q: seq<string>, j: nat)
    requires m.writeBuffer == [] && j < |q| && m.writeResults == q[j..]
    requires kv.send(Put, [], [], m.store) == Pass(m.store, Some([]))
    ensures Next(kv, m, WaitWrite([])) == (m.(writeResults := q[j + 1..]), Some(Raising(q[j])))
  {
    assert q[j..] + [] == q[j..] && q[j..][1..] == q[j + 1..];
  }

  lemma FirstBadAt(q: seq<string>, n: nat, j: nat)
    requires j < n <= |q| && (forall k :: 0 <= k < j ==> q[k] == "!ok") && q[j] != "!ok"
    ensures FirstBad(q, n) == j && Taken(q, n) == j + 1 && !AllOk(q[..n])
  {
    assert q[..n][j] == q[j];
  }

  lemma NoneBad(q: seq<string>, n: nat)
    requires n <= |q| && forall k :: 0 <= k < n ==> q[k] == "!ok"
    ensures Taken(q, n) == n && AllOk(q[..n])
  {
  }

  /** The results a batch sees: those left over, then its own. */
  ghost function Seeing(server: Server, m: Mux, pairs: seq<Command>, es: seq<Episode>): seq<string> {
    m.writeResults + Handed(Sending(server, Put, pairs, es, m.store))
  }

  /** The try block of async_writes: the batch succeeds exactly if the first n results, those left over
      included, are !ok; it takes them, or those up to the first that is not. None: a wait has not
      returned. */
  method WriteBatch(mux: MemoryMuxClient, pairs: seq<Command>, es: seq<Episode>) returns (success: Option<bool>)
    requires mux.Valid() && mux.writes == [] && Pairs(pairs) && pairs != []
    requires IgnoresMark(mux.client.server) && AllLegal(es, pairs)
    modifies mux, mux.client
    ensures mux.Valid()
    ensures success.Some? <==> Sending(mux.client.server, Put, pairs, es, old(mux.State()).store).replies.Some?
    ensures success.Some? ==>
              var q := Seeing(mux.client.server, old(mux.State()), pairs, es);
              && |pairs| <= |q| && (success.value <==> AllOk(q[..|pairs|]))
              && mux.State() == old(mux.State()).(store := Sending(mux.client.server, Put, pairs, es, old(mux.State()).store).store,
                                                  writeResults := q[Taken(q, |pairs|)..])
  {
    ghost var server, m := mux.client.server, mux.State();
    ghost var p, q := Sending(server, Put, pairs, es, m.store), Seeing(server, m, pairs, es);
    Issue(mux, pairs);
    FlatGroups(pairs);
    FirstWait(ClientOf(server), m, pairs, es, p);
    if p.replies.Some? {
      SeesOwn(server, m, pairs, es);
    }
    var r := mux.DoWaitWrite(es);
    if r.None? {
      return None;
    }
    var ok := AwaitRest(mux, |pairs|, r.value, m.(store := p.store), q);
    success := Some(ok);
  }

  /** The waits after the first. */
  method AwaitRest(mux: MemoryMuxClient, n: nat, first: Output, ghost m: Mux, ghost q: seq<string>) returns (ok: bool)
    requires mux.Valid() && 0 < n <= |q| && first == Raising(q[0])
    requires mux.State() == m.(writeResults := q[1..]) && m.writeBuffer == []
    modifies mux, mux.client
    ensures mux.Valid() && (ok <==> AllOk(q[..n])) && mux.State() == m.(writeResults := q[Taken(q, n)..])
  {
    var r, j := first, 1;
    while r.Nothing? && j < n
      invariant mux.Valid() && 1 <= j <= n
      invariant (mux.State(), r) == (m.(writeResults := q[j..]), Raising(q[j - 1]))
      invariant forall k :: 0 <= k < j - 1 ==> q[k] == "!ok"
      decreases n - j
    {
      LaterWait(ClientOf(mux.client.server), mux.State(), q, j);
      var next := mux.DoWaitWrite([]);
      r := next.value;
      j := j + 1;
    }
    ok := r.Nothing?;
    if r.Nothing? {
      NoneBad(q, n);
    } else {
      FirstBadAt(q, n, j - 1);
    }
  }

  lemma SeesOwn(server: Server, m: Mux, pairs: seq<Command>, es: seq<Episode>)
    requires Sending(server, Put, pairs, es, m.store).replies.Some? && pairs != []
    ensures |Seeing(server, m, pairs, es)| == |m.writeResults| + |pairs|
  {
    RedoneAfter(server, Put, pairs, Fitting(es, pairs), m.store);
  }

  /** What is left over for the next batch: as much as before, and one less than the writes after the one
      that failed. */
  lemma LeftOver(server: Server, m: Mux, pairs: seq<Command>, es: seq<Episode>)
    requires Sending(server, Put, pairs, es, m.store).replies.Some? && pairs != []
    ensures var q := Seeing(server, m, pairs, es);
            && |pairs| <= |q|
            && |q[Taken(q, |pairs|)..]| == |m.writeResults| + if AllOk(q[..|pairs|]) then 0 else |pairs| - 1 - FirstBad(q, |pairs|)
  {
    var q := Seeing(server, m, pairs, es);
    SeesOwn(server, m, pairs, es);
    if FirstBad(q, |pairs|) < |pairs| {
      FirstBadAt(q, |pairs|, FirstBad(q, |pairs|));
    } else {
      NoneBad(q, |pairs|);
    }
  }

  /** A batch is judged by its own writes, whatever their results, exactly if no earlier batch has left a
      result over. */
  lemma JudgedExactly(left: seq<string>, n: nat)
    requires n > 0
    ensures (forall own: seq<string> :: |own| == n ==> (AllOk((left + own)[..n]) <==> AllOk(own))) <==> left == []
  {
    if left == [] {
      forall own: seq<string> | |own| == n ensures AllOk((left + own)[..n]) <==> AllOk(own) {
        assert (left + own)[..n] == own;
      }
    } else {
      var own := Misjudged(left, n);
    }
  }

  /** If what is left over is all !ok a write that fails goes unseen, and otherwise one that does not is
      blamed. */
  lemma Misjudged(left: seq<string>, n: nat) returns (own: seq<string>)
    requires n > 0 && left != []
    ensures |own| == n && (AllOk((left + own)[..n]) <==> !AllOk(own))
  {
    var k := if |left| < n then |left| else n;
    if forall j :: 0 <= j < k ==> left[j] == "!ok" {
      own := seq(n, j => if j == n - 1 then "!duplicate_key" else "!ok");
      assert own[n - 1] != "!ok";
      forall j | 0 <= j < n ensures (left + own)[..n][j] == "!ok" {
      }
    } else {
      own := seq(n, _ => "!ok");
      var j :| 0 <= j < k && left[j] != "!ok";
      assert (left + own)[..n][j] != "!ok";
    }
  }
}
