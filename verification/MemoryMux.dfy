/** The asynchronous interface of memorymux: the deferred queues on top of the sharded client, whose puts
    and gets are resent while their blocks move. */
module MemoryMux {
  import opened Common
  import opened KvStore
  import opened Redo
  import opened Attempts
  import opened RedoLoop
  import opened DeferredQueue
  import opened ShardedClient

  /** Episodes that do not fit the batch stand for none. */
  function Fitting(es: seq<Episode>, cs: seq<Command>): (r: seq<Episode>)
    ensures AllLegal(r, cs)
  {
    if AllLegal(es, cs) then es else []
  }

  /** One put or get of a buffer, resent as often as its blocks move; an empty one is not sent. */
  function Sending(server: Server, op: KvOp, cs: seq<Command>, es: seq<Episode>, s: Store): Pass {
    if cs == [] then Pass(s, Some([])) else Redone(server, op, cs, Fitting(es, cs), s)
  }

  /** An attempt at a put that was given up put k. */
  predicate HadPut(server: Server, cs: seq<Command>, es: seq<Episode>, s: Store, k: string) {
    Touches(Aborted(server, Put, cs, Fitting(es, cs), s), k)
  }

  /** The sharded client as the queues see it. */
  function ClientOf(server: Server): Client {
    Client(server,
           (op: KvOp, cs: seq<Command>, es: seq<Episode>, s: Store) => Sending(server, op, cs, es, s),
           (cs: seq<Command>, es: seq<Episode>, s: Store, k: string) => HadPut(server, cs, es, s, k))
  }

  /** A put that returns leaves the store of one attempt, however often it is resent, and one reply a pair. */
  lemma SendingPuts(server: Server, cs: seq<Command>, es: seq<Episode>, s: Store)
    requires Standard(server)
    ensures var p := Sending(server, Put, cs, es, s);
            p.replies.Some? ==> p.store == Run(server, Put, cs, s).store && |p.replies.value| == |cs|
  {
    if cs != [] && Sending(server, Put, cs, es, s).replies.Some? {
      RedoneAsOnce(server, Put, cs, Fitting(es, cs), s);
    }
  }

  lemma {:induction false} SingleKeys(keys: seq<string>)
    ensures |Group(keys, 1)| == |keys| && forall i :: 0 <= i < |keys| ==> Group(keys, 1)[i] == [keys[i]]
  {
    if keys == [] {
    } else {
      SingleKeys(keys[..|keys| - 1]);
    }
  }

  lemma GetsAnswer(server: Server, keys: seq<string>, s: Store)
    requires ReadOnly(server)
    ensures var rs := Run(server, Get, Group(keys, 1), s).responses;
            |rs| == |keys| && forall i :: 0 <= i < |keys| ==> rs[i] == Answer(server, keys[i], s)
  {
    SingleKeys(keys);
    RunGets(server, Group(keys, 1), s);
  }

  /** A get that returns gives the answers on the store it finds, each exactly if it reads like no sign. */
  lemma SendingGets(server: Server, keys: seq<string>, es: seq<Episode>, s: Store)
    requires ReadOnly(server)
    ensures var p := Sending(server, Get, Group(keys, 1), es, s);
            && p.store == s
            && (p.replies.Some? ==>
                  |p.replies.value| == |keys| && forall i :: 0 <= i < |keys| ==> GetReply(p.replies.value[i], Answer(server, keys[i], s)))
  {
    var cs := Group(keys, 1);
    RedoneGets(server, cs, Fitting(es, cs), s);
    GetsAnswer(server, keys, s);
  }

  lemma SendingReply(server: Server, cs: seq<Command>, es: seq<Episode>, s: Store, j: nat)
    requires Standard(server) && PutReplies(server) && j < |cs| && Sending(server, Put, cs, es, s).replies.Some?
    ensures |Sending(server, Put, cs, es, s).replies.value| == |cs|
    ensures Sending(server, Put, cs, es, s).replies.value[j]
         == if HadPut(server, cs, es, s, Key(cs[j])) then "!duplicate_key" else Run(server, Put, cs, s).responses[j]
  {
    RedonePut(server, cs, Fitting(es, cs), s);
    ResentReply(server, Aborted(server, Put, cs, Fitting(es, cs), s), cs, s, j);
  }

  /** It keeps the promises. */
  lemma ClientKeeps(server: Server)
    requires Standard(server)
    ensures PutsOnce(ClientOf(server)) && GetsRead(ClientOf(server))
    ensures PutReplies(server) ==> PutsReply(ClientOf(server))
  {
    var kv := ClientOf(server);
    forall cs, es, s ensures PutOnce(kv.send(Put, cs, es, s), Run(server, Put, cs, s)) {
      SendingPuts(server, cs, es, s);
    }
    forall keys, es, s ensures GetRead(server, keys, s, kv.send(Get, Group(keys, 1), es, s)) {
      SendingGets(server, keys, es, s);
    }
    if PutReplies(server) {
      forall cs, es, s, j: nat | j < |Handed(kv.send(Put, cs, es, s))| <= |cs|
        ensures Handed(kv.send(Put, cs, es, s))[j] == if kv.had(cs, es, s, Key(cs[j])) then "!duplicate_key" else Run(server, Put, cs, s).responses[j]
      {
        SendingReply(server, cs, es, s, j);
      }
    }
  }

  // What the caller of memorymux gets.

  /** Whatever moves, nothing issued is lost, doubled or put out of order. */
  lemma RunAccounted(server: Server, s: Store, steps: seq<Step>, n: nat)
    requires Standard(server) && n <= |steps| && Waits(steps, n) && Exec(ClientOf(server), s, steps, n).Some?
    ensures var kv := ClientOf(server);
            Accounted(kv, s, IssuedBy(steps, n), GotBy(kv, s, steps, n), Exec(kv, s, steps, n).value)
  {
    ClientKeeps(server);
    AlwaysAccounted(ClientOf(server), s, steps, n);
  }

  /** A wait_write returns exactly when there is nothing to send or some attempt applies all of it. */
  lemma WriteReturns(server: Server, s: Store, steps: seq<Step>, n: nat, es: seq<Episode>)
    requires Standard(server) && PutReplies(server) && n <= |steps| && Waits(steps, n)
    requires Exec(ClientOf(server), s, steps, n).Some?
    ensures var kv, cs := ClientOf(server), Unsent(IssuedBy(steps, n));
            && (Next(kv, Exec(kv, s, steps, n).value, WaitWrite(es)).1.Some?
                <==> cs == [] || exists a :: 0 <= a < |Fitting(es, cs)| && AllApplied(Fitting(es, cs)[a]))
  {
    var l := IssuedBy(steps, n);
    ClientKeeps(server);
    WaitReturns(ClientOf(server), s, steps, n, WaitWrite(es));
    PutReturns(server, Unsent(l), Fitting(es, Unsent(l)), Once(server, s, l).store);
  }

  /** No value under the keys is !block_moved. */
  predicate Readable(keys: seq<string>, s: Store) {
    forall i :: 0 <= i < |keys| && keys[i] in s ==> s[keys[i]] != MOVED
  }

  lemma CanSend(server: Server, keys: seq<string>, s: Store)
    requires ReadOnly(server) && Echoes(server)
    ensures (exists es :: Sending(server, Get, Group(keys, 1), es, s).replies.Some?)
       <==> Readable(keys, s)
  {
    var cs := Group(keys, 1);
    SingleKeys(keys);
    GetReturnsExactly(server, cs, s);
    assert forall i :: 0 <= i < |cs| ==> Key(cs[i]) == keys[i];
    if cs == [] {
      assert Sending(server, Get, cs, [], s).replies.Some?;
    } else {
      if es :| AllLegal(es, cs) && Redone(server, Get, cs, es, s).replies.Some? {
        assert Sending(server, Get, cs, es, s).replies.Some?;
      }
      if es :| Sending(server, Get, cs, es, s).replies.Some? {
        assert AllLegal(Fitting(es, cs), cs) && Redone(server, Get, cs, Fitting(es, cs), s).replies.Some?;
      }
    }
  }

  /** A wait_read can return, whatever moves, exactly when no value it has to read is !block_moved. */
  lemma ReadCanReturn(server: Server, s: Store, steps: seq<Step>, n: nat)
    requires Standard(server) && Echoes(server) && n <= |steps| && Waits(steps, n) && Exec(ClientOf(server), s, steps, n).Some?
    ensures var kv, l := ClientOf(server), IssuedBy(steps, n);
            && ((exists es :: Next(kv, Exec(kv, s, steps, n).value, WaitRead(es)).1.Some?)
                <==> Readable(Unasked(l), Once(server, s, l).store))
  {
    var kv, l := ClientOf(server), IssuedBy(steps, n);
    var m, t := Exec(kv, s, steps, n).value, Once(server, s, IssuedBy(steps, n)).store;
    ClientKeeps(server);
    CanSend(server, Unasked(l), t);
    if es :| Next(kv, m, WaitRead(es)).1.Some? {
      WaitReturns(kv, s, steps, n, WaitRead(es));
      assert Sending(server, Get, Group(Unasked(l), 1), es, t).replies.Some?;
    } else {
      forall es ensures !Sending(server, Get, Group(Unasked(l), 1), es, t).replies.Some? {
        WaitReturns(kv, s, steps, n, WaitRead(es));
        assert !Next(kv, m, WaitRead(es)).1.Some?;
      }
    }
  }

  /** The i-th wait_write raises exactly when the i-th put of a run of all puts in issue order is not
      answered !ok, or its key was put by an attempt that was given up. */
  lemma WriteOrder(server: Server, s: Store, steps: seq<Step>, n: nat) returns (p: nat)
    requires Standard(server) && PutReplies(server)
    requires n < |steps| && steps[n].WaitWrite? && Waits(steps, n + 1) && Exec(ClientOf(server), s, steps, n + 1).Some?
    ensures var kv, l := ClientOf(server), IssuedBy(steps, n);
            var i := l.writeWaits;
            && p <= n && SendPoint(steps, i, p) && i < |l.written|
            && OutputAt(kv, s, steps, n)
            == Some(if Run(server, Put, l.written, s).responses[i] == "!ok" && !PutBefore(kv, s, steps, i, p) then Nothing
                    else Raised("!duplicate_key"))
  {
    ClientKeeps(server);
    p := WriteFifo(ClientOf(server), s, steps, n);
  }

  /** The i-th wait_read returns the answer for the i-th read_async key exactly if that reads like no sign. */
  lemma ReadOrder(server: Server, s: Store, steps: seq<Step>, n: nat) returns (p: nat)
    requires Standard(server) && n < |steps| && steps[n].WaitRead? && Waits(steps, n + 1)
    requires Exec(ClientOf(server), s, steps, n + 1).Some?
    ensures var l := IssuedBy(steps, n);
            && p <= n && AskPoint(steps, l.readWaits, p) && l.readWaits < |l.keys|
            && var answer := Answer(server, l.keys[l.readWaits], Once(server, s, IssuedBy(steps, p)).store);
            && answer != MOVED
            && (OutputAt(ClientOf(server), s, steps, n) == Some(Value(answer)) <==> Plain(answer))
  {
    ClientKeeps(server);
    p := ReadFifo(ClientOf(server), s, steps, n);
  }

  // The object.

  predicate WholePairs(args: seq<string>) {
    |args| % 2 == 0
  }

  lemma {:induction false} PairsGrouped(args: seq<string>)
    requires WholePairs(args)
    ensures Group(args, 2) == [] <==> args == []
  {
  }

  lemma FlushedWrites(server: Server, m: Mux, es: seq<Episode>)
    requires WholePairs(m.writeBuffer) && (m.writeBuffer != [] || m.writeResults != []) && FlushWrites(ClientOf(server), m, es).1
    ensures FlushWrites(ClientOf(server), m, es).0.writeResults != []
  {
    PairsGrouped(m.writeBuffer);
  }

  lemma FlushedReads(server: Server, m: Mux, es: seq<Episode>)
    requires (m.readBuffer != [] || m.readResults != []) && FlushReads(ClientOf(server), m, es).1
    ensures FlushReads(ClientOf(server), m, es).0.readResults != []
  {
    SingleKeys(m.readBuffer);
  }

  class MemoryMuxClient {
    const client: KvClient
    var writes: seq<string>
    var readKeys: seq<string>
    var writeResults: seq<string>
    var readResults: seq<string>

    ghost predicate Valid()
      reads this, client
    {
      client.Valid() && WholePairs(writes)
    }

    ghost function State(): Mux
      requires Valid()
      reads this, client
    {
      Mux(writes, readKeys, writeResults, readResults, client.Contents())
    }

    constructor (client: KvClient)
      requires client.Valid()
      ensures Valid() && this.client == client && State() == Start(client.Contents())
    {
      this.client := client;
      writes, readKeys, writeResults, readResults := [], [], [], [];
    }

    method DoWriteAsync(key: string, value: string)
      requires Valid()
      modifies this
      ensures Valid() && State() == Next(ClientOf(client.server), old(State()), WriteAsync(key, value)).0
    {
      var was := writes;
      writes := writes + [key];
      writes := writes + [value];
      assert writes == was + [key, value] && client.Valid();
    }

    method DoReadAsync(key: string)
      requires Valid()
      modifies this
      ensures Valid() && State() == Next(ClientOf(client.server), old(State()), ReadAsync(key)).0
    {
      readKeys := readKeys + [key];
    }

    static method PushAll(results: seq<string>, ret: seq<string>) returns (r: seq<string>)
      ensures r == results + ret
    {
      r := results;
      for i := 0 to |ret|
        invariant r == results + ret[..i]
      {
        r := r + [ret[i]];
      }
      assert ret[..|ret|] == ret;
    }

    /** The attempts at the buffers fit them. */
    ghost predicate Meets(args: seq<string>, n: nat, es: seq<Episode>)
      reads client
    {
      IgnoresMark(client.server) && AllLegal(es, Group(args, n))
    }

    method SendWrites(es: seq<Episode>) returns (returned: bool)
      requires Valid() && (writes != [] ==> Meets(writes, 2, es))
      modifies this, client
      ensures Valid() && (State(), returned) == FlushWrites(ClientOf(client.server), old(State()), es)
    {
      PairsGrouped(writes);
      assert writeResults + [] == writeResults;
      if writes != [] {
        var ret := client.BatchWithRedo(Put, writes, 2, es);
        if ret.None? {
          assert client.Valid();
          return false;
        }
        writeResults := PushAll(writeResults, ret.value.value);
        writes := [];
        assert client.Valid();
      }
      return true;
    }

    method SendReads(es: seq<Episode>) returns (returned: bool)
      requires Valid() && (readKeys != [] ==> Meets(readKeys, 1, es))
      modifies this, client
      ensures Valid() && (State(), returned) == FlushReads(ClientOf(client.server), old(State()), es)
    {
      SingleKeys(readKeys);
      assert readResults + [] == readResults;
      if readKeys != [] {
        assert |readKeys| % 1 == 0;
        var ret := client.BatchWithRedo(Get, readKeys, 1, es);
        if ret.None? {
          assert client.Valid();
          return false;
        }
        readResults := PushAll(readResults, ret.value.value);
        readKeys := [];
        assert client.Valid();
      }
      return true;
    }

    /** None: the wait has not returned. */
    method DoWaitWrite(es: seq<Episode>) returns (r: Option<Output>)
      requires Valid() && (writes != [] || writeResults != []) && (writes != [] ==> Meets(writes, 2, es))
      modifies this, client
      ensures Valid() && (State(), r) == Next(ClientOf(client.server), old(State()), WaitWrite(es))
    {
      ghost var m := State();
      var returned := SendWrites(es);
      if !returned {
        return None;
      }
      FlushedWrites(client.server, m, es);
      var front := writeResults[0];
      writeResults := writeResults[1..];
      r := Some(if front != "!ok" then Raised(front) else Nothing);
    }

    method DoWaitRead(es: seq<Episode>) returns (r: Option<Output>)
      requires Valid() && (readKeys != [] || readResults != []) && (readKeys != [] ==> Meets(readKeys, 1, es))
      modifies this, client
      ensures Valid() && (State(), r) == Next(ClientOf(client.server), old(State()), WaitRead(es))
    {
      ghost var m := State();
      var returned := SendReads(es);
      if !returned {
        return None;
      }
      FlushedReads(client.server, m, es);
      r := Some(Value(readResults[0]));
      readResults := readResults[1..];
    }
  }
}
