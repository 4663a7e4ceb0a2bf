/** The client of one replica chain: one request in flight, responses matched by sequence number,
    and commands sent again after the connection was lost. */
module ReplicaChain {
  import opened Common
  import opened KvStore
  import opened Redo

  // The protocol: client, connection and block as interleaved steps.

  /** A message carries the client's sequence number; id tells requests apart in the history. */
  datatype Message = Message(seqNo: nat, id: nat)

  datatype Accepted = Accepted(response: Message, awaited: int)

  /** seqNo is seq_.client_seq_no. requests and responses are on the current connection. sent counts
      the requests so far, accepted lists what recv_response returned, mismatch records its error. */
  datatype Net = Net(
    seqNo: nat, inFlight: bool, broken: bool,
    requests: seq<Message>, responses: seq<Message>,
    sent: nat, accepted: seq<Accepted>, mismatch: bool)

  datatype NetStep = Send | Serve | Recv | Break | Reconnect

  function Connected(): Net {
    Net(0, false, false, [], [], 0, [], false)
  }

  function NextNet(n: Net, step: NetStep): Net {
    match step
    case Send =>
      // "Cannot have more than one request in-flight", or a transport exception.
      if n.inFlight || n.broken then n
      else n.(requests := n.requests + [Message(n.seqNo, n.sent)], sent := n.sent + 1, inFlight := true)
    case Serve =>
      if n.requests == [] then n
      else n.(requests := n.requests[1..], responses := n.responses + [n.requests[0]])
    case Recv =>
      if n.responses == [] then n
      else if n.responses[0].seqNo != n.seqNo then n.(responses := n.responses[1..], mismatch := true)
      else n.(responses := n.responses[1..], seqNo := n.seqNo + 1, inFlight := false,
              accepted := n.accepted + [Accepted(n.responses[0], n.sent - 1)])
    case Break => n.(broken := true, requests := [], responses := [])
    case Reconnect => n.(broken := false, requests := [], responses := [], inFlight := false)
  }

  function RunNet(steps: seq<NetStep>): Net {
    if steps == [] then Connected() else NextNet(RunNet(steps[..|steps| - 1]), steps[|steps| - 1])
  }

  /** What every step keeps. */
  ghost predicate InOrder(n: Net) {
    var outstanding := n.requests + n.responses;
    && (outstanding == [] || (n.inFlight && n.sent > 0 && outstanding == [Message(n.seqNo, n.sent - 1)]))
    && (n.inFlight && !n.broken ==> outstanding != [])
    && n.seqNo == |n.accepted| <= n.sent - |outstanding|
    && (forall i :: 0 <= i < |n.accepted| ==>
          && n.accepted[i].response.seqNo == i && n.accepted[i].response.id == n.accepted[i].awaited
          && n.accepted[i].awaited < n.sent - |outstanding|)
    && (forall i, j :: 0 <= i < j < |n.accepted| ==> n.accepted[i].awaited < n.accepted[j].awaited)
    && !n.mismatch
  }

  lemma InOrderRecv(n: Net)
    requires InOrder(n) && n.responses != []
    ensures InOrder(NextNet(n, Recv))
  {
    var m, outstanding := NextNet(n, Recv), n.requests + n.responses;
    assert |outstanding| == |n.requests| + |n.responses| <= 1;
    assert n.responses[0] == outstanding[0] && n.responses[0] == Message(n.seqNo, n.sent - 1);
    assert m.requests == [] && m.responses == [];
  }

  lemma InOrderServe(n: Net)
    requires InOrder(n) && n.requests != []
    ensures InOrder(NextNet(n, Serve))
  {
    var m, outstanding := NextNet(n, Serve), n.requests + n.responses;
    assert |outstanding| == |n.requests| + |n.responses| <= 1;
    assert n.requests == outstanding && n.responses == [];
    assert m.requests + m.responses == outstanding;
  }

  lemma InOrderStep(n: Net, step: NetStep)
    requires InOrder(n)
    ensures InOrder(NextNet(n, step))
  {
    var m := NextNet(n, step);
    match step
    case Send =>
      if !n.inFlight && !n.broken {
        assert n.requests + n.responses == [] && m.requests + m.responses == [Message(n.seqNo, n.sent)];
      }
    case Serve =>
      if n.requests != [] {
        InOrderServe(n);
      }
    case Recv =>
      if n.responses != [] {
        InOrderRecv(n);
      }
    case _ =>
      assert m.requests + m.responses == [];
  }

  /** In every run of sends, replies, failures and reconnections at most one request is outstanding,
      the sequence number counts the accepted responses, and response i carries number i and answers
      the request its caller sent last. */
  lemma {:induction false} ProtocolInvariant(steps: seq<NetStep>, k: nat)
    requires k <= |steps|
    ensures InOrder(RunNet(steps)) && RunNet(steps[..k]).seqNo <= RunNet(steps).seqNo
  {
    if steps == [] {
    } else {
      var before := steps[..|steps| - 1];
      if k == |steps| {
        assert steps[..k] == steps;
        ProtocolInvariant(before, 0);
      } else {
        assert before[..k] == steps[..k];
        ProtocolInvariant(before, k);
      }
      InOrderStep(RunNet(before), steps[|steps| - 1]);
    }
  }

  /** A request on a connection that is not broken is answered, if it is served and received, and the client
      is idle again with the next number; */
  lemma OutstandingAccepted(n: Net)
    requires InOrder(n) && n.inFlight && !n.broken
    ensures NextNet(if n.requests != [] then NextNet(n, Serve) else n, Recv)
         == n.(requests := [], responses := [], inFlight := false, seqNo := n.seqNo + 1,
               accepted := n.accepted + [Accepted(Message(n.seqNo, n.sent - 1), n.sent - 1)])
  {
    var outstanding := n.requests + n.responses;
    assert outstanding == [Message(n.seqNo, n.sent - 1)] && |n.requests| + |n.responses| == 1;
    if n.requests != [] {
      assert n.requests[0] == outstanding[0] && n.requests[1..] == [] && n.responses == [];
    } else {
      assert n.responses == outstanding;
    }
  }

  /** so an idle connection gets every request through, and after a failure a new connection is idle, with
      the number and the history as they were. */
  lemma SendAccepted(n: Net)
    requires InOrder(n) && !n.inFlight && !n.broken
    ensures NextNet(NextNet(NextNet(n, Send), Serve), Recv)
         == n.(seqNo := n.seqNo + 1, sent := n.sent + 1,
               accepted := n.accepted + [Accepted(Message(n.seqNo, n.sent), n.sent)])
    ensures NextNet(NextNet(n, Break), Reconnect) == NextNet(n, Reconnect) == n
  {
    assert n.requests + n.responses == [];
    assert n.requests == [] && n.responses == [];
    InOrderStep(n, Send);
    assert NextNet(n, Send).requests == [Message(n.seqNo, n.sent)];
    OutstandingAccepted(NextNet(n, Send));
  }

  lemma FirstRequest()
    ensures RunNet([Send, Serve, Recv]) == Connected().(seqNo := 1, sent := 1, accepted := [Accepted(Message(0, 0), 0)])
  {
    assert [Send, Serve, Recv][..2] == [Send, Serve] && [Send, Serve][..1] == [Send] && [Send][..0] == [];
    assert RunNet([Send]) == NextNet(Connected(), Send);
    SendAccepted(Connected());
  }

  /** On a broken connection nothing happens, a second request is refused while one is outstanding, and a
      response with another number is reported and not accepted. */
  lemma Refused(n: Net)
    ensures var m := NextNet(n, Break);
            && m == n.(broken := true, requests := [], responses := [])
            && forall step :: step == Send || step == Serve || step == Recv ==> NextNet(m, step) == m
    ensures n.inFlight ==> NextNet(n, Send) == n
    ensures n.responses != [] && n.responses[0].seqNo != n.seqNo ==>
              NextNet(n, Recv) == n.(responses := n.responses[1..], mismatch := true)
  {
  }

  /** Reconnecting in the middle of a request gives it up. */
  lemma ReconnectIdles(n: Net)
    requires InOrder(n)
    ensures var m := NextNet(n, Reconnect);
            && InOrder(m) && !m.inFlight && !m.broken
            && m == n.(inFlight := false, broken := false, requests := m.requests, responses := m.responses)
            && NextNet(m, Serve) == NextNet(m, Recv) == m
  {
    InOrderStep(n, Reconnect);
    assert NextNet(n, Reconnect).requests + NextNet(n, Reconnect).responses == [];
  }

  // Retries.

  /** How an attempt is lost: while sending or while waiting, and whether the block applied it. */
  datatype Fault = Fault(sending: bool, applied: bool)

  datatype Status = Done | TransportError | LengthError

  class ReplicaChainClient {
    const server: Server
    var seqNo: nat
    var inFlight: bool
    var chain: nat
    /** The store of the block behind the chain, and the response on the connection. */
    var store: Store
    var reply: Option<seq<string>>

    predicate Idle()
      reads this
    {
      !inFlight && reply == None
    }

    predicate Valid()
      reads this
    {
      !inFlight ==> reply == None
    }

    constructor (server: Server, store: Store)
      ensures Idle() && this.server == server && this.store == store && seqNo == 0
    {
      this.server := server;
      this.store := store;
      seqNo, inFlight, chain, reply := 0, false, 0, None;
    }

    /** connect: a new connection, on which nothing is outstanding. */
    method Connect(chain: nat)
      modifies this`chain, this`reply, this`inFlight
      ensures Idle() && this.chain == chain
    {
      this.chain := chain;
      reply := None;
      inFlight := false;
    }

    method SendCommand(op: KvOp, c: Command, fault: Option<Fault>) returns (status: Status)
      modifies this`store, this`reply, this`inFlight
      ensures old(inFlight) ==> status == LengthError && store == old(store) && reply == old(reply) && inFlight
      ensures !old(inFlight) ==>
                var r := Run(server, op, [c], old(store));
                && store == (if fault.Some? && !fault.value.applied then old(store) else r.store)
                && status == (if fault.Some? && fault.value.sending then TransportError else Done)
                && inFlight == (status == Done)
                && reply == (if fault.Some? then old(reply) else Some(r.responses))
    {
      if inFlight {
        return LengthError;
      }
      var r := Run(server, op, [c], store);
      if fault.None? || fault.value.applied {
        store := r.store;
      }
      if fault.None? {
        reply := Some(r.responses);
      } else if fault.value.sending {
        return TransportError;
      }
      inFlight := true;
      status := Done;
    }

    method RecvResponse() returns (status: Status, response: seq<string>)
      modifies this`seqNo, this`reply, this`inFlight
      ensures old(reply).None? ==>
                && status == TransportError && response == []
                && seqNo == old(seqNo) && inFlight == old(inFlight) && reply == None
      ensures old(reply).Some? ==>
                && status == Done && response == old(reply).value
                && seqNo == old(seqNo) + 1 && Idle()
    {
      if reply.None? {
        return TransportError, [];
      }
      status, response := Done, reply.value;
      seqNo, inFlight, reply := seqNo + 1, false, None;
    }

    /** run_command: on a transport failure reconnect and send the command again. */
    method RunCommand(op: KvOp, c: Command, faults: seq<Fault>) returns (status: Status, response: string)
      requires Valid()
      modifies this
      ensures Valid()
      ensures old(inFlight) ==>
                && status == LengthError && inFlight
                && store == old(store) && seqNo == old(seqNo) && chain == old(chain) && reply == old(reply)
      ensures !old(inFlight) ==>
                && status == Done && Idle() && seqNo == old(seqNo) + 1 && chain == old(chain) + |faults|
                && store == Retried(server, op, c, faults, old(store)).store
                && response == Retried(server, op, c, faults, old(store)).responses[0]
      ensures !old(inFlight) ==>
                var last := Run(server, op, [c], Run(server, op, Copies(c, Applied(faults)), old(store)).store);
                && store == last.store
                && response == if faults != [] && last.responses[0] == "!duplicate_key" then "!ok" else last.responses[0]
    {
      var retry, rest, responses: seq<string> := false, faults, [];
      status, response := Done, "";
      while responses == []
        invariant old(inFlight) ==>
                    && inFlight && rest == faults && !retry && responses == []
                    && store == old(store) && seqNo == old(seqNo) && chain == old(chain) && reply == old(reply)
        invariant !old(inFlight) ==> Idle() && (responses == [] || rest == []) && chain + |rest| == old(chain) + |faults|
        invariant Valid()
        invariant !old(inFlight) && responses == [] ==>
                    && seqNo == old(seqNo) && retry == (rest != faults) && |rest| <= |faults|
                    && Replayed(server, op, c, rest, store, retry) == Retried(server, op, c, faults, old(store))
        invariant !old(inFlight) && responses != [] ==>
                    && seqNo == old(seqNo) + 1 && |responses| == 1
                    && store == Retried(server, op, c, faults, old(store)).store
                    && responses == Retried(server, op, c, faults, old(store)).responses
        decreases if responses == [] then |rest| + 1 else 0
      {
        var fault := if rest == [] then None else Some(rest[0]);
        var sent := SendCommand(op, c, fault);
        if sent == LengthError {
          return LengthError, "";
        }
        var received := sent;
        if sent == Done {
          received, responses := RecvResponse();
        }
        if received == Done {
          if retry && responses[0] == "!duplicate_key" {
            responses := responses[0 := "!ok"];
          }
        } else {
          Connect(chain + 1);
          retry := true;
          rest := rest[1..];
        }
      }
      ResentMeaning(server, op, c, faults, old(store));
      response := responses[0];
    }
  }

  /** The store and response after the remaining faults and one undisturbed attempt. */
  function Replayed(server: Server, op: KvOp, c: Command, faults: seq<Fault>, s: Store, retry: bool): (r: Ran)
    ensures |r.responses| == 1
  {
    var once := Run(server, op, [c], s);
    if faults == [] then
      if retry && once.responses[0] == "!duplicate_key" then once.(responses := ["!ok"]) else once
    else
      Replayed(server, op, c, faults[1..], if faults[0].applied then once.store else s, true)
  }

  function Retried(server: Server, op: KvOp, c: Command, faults: seq<Fault>, s: Store): (r: Ran)
    ensures |r.responses| == 1
  {
    Replayed(server, op, c, faults, s, false)
  }

  /** How many of the attempts that were lost had been applied. */
  function Applied(faults: seq<Fault>): (n: nat)
    ensures n <= |faults|
  {
    if faults == [] then 0 else Applied(faults[1..]) + if faults[0].applied then 1 else 0
  }

  function Copies(c: Command, n: nat): seq<Command> {
    seq(n, _ => c)
  }

  /** One copy more at the front. */
  lemma CopiesFirst(server: Server, op: KvOp, c: Command, n: nat, s: Store)
    ensures Run(server, op, Copies(c, n), Run(server, op, [c], s).store).store == Run(server, op, Copies(c, n + 1), s).store
  {
    RunConcat(server, op, [c], Copies(c, n), s);
    assert [c] + Copies(c, n) == Copies(c, n + 1);
  }

  lemma {:induction false} ReplayedMeaning(server: Server, op: KvOp, c: Command, faults: seq<Fault>, s: Store, retry: bool)
    ensures var last := Run(server, op, [c], Run(server, op, Copies(c, Applied(faults)), s).store);
            var duplicate := (retry || faults != []) && last.responses[0] == "!duplicate_key";
            Replayed(server, op, c, faults, s, retry) == Ran(last.store, [if duplicate then "!ok" else last.responses[0]])
    decreases |faults|
  {
    if faults == [] {
      assert Run(server, op, [], s) == Ran(s, []);
      var last := Run(server, op, [c], s);
      assert last.responses == [last.responses[0]];
    } else if faults[0].applied {
      ReplayedMeaning(server, op, c, faults[1..], Run(server, op, [c], s).store, true);
      CopiesFirst(server, op, c, Applied(faults[1..]), s);
    } else {
      ReplayedMeaning(server, op, c, faults[1..], s, true);
    }
  }

  /** Whatever the command and the block: the caller gets the block's reply to one more command after those
      that were applied and lost, but "!duplicate_key" after a failure reads as "!ok". */
  lemma ResentMeaning(server: Server, op: KvOp, c: Command, faults: seq<Fault>, s: Store)
    ensures var last := Run(server, op, [c], Run(server, op, Copies(c, Applied(faults)), s).store);
            var reply := if faults != [] && last.responses[0] == "!duplicate_key" then "!ok" else last.responses[0];
            Retried(server, op, c, faults, s) == Ran(last.store, [reply])
  {
    ReplayedMeaning(server, op, c, faults, s, false);
  }

  /** Copies of one command do what one of them does. */
  lemma {:induction false} CopiesAsOne(server: Server, op: KvOp, c: Command, n: nat, s: Store)
    requires Standard(server)
    ensures Run(server, op, Copies(c, n), s).store == if n == 0 then s else Run(server, op, [c], s).store
  {
    if n == 0 {
    } else {
      CopiesFirst(server, op, c, n - 1, s);
      CopiesAsOne(server, op, c, n - 1, Run(server, op, [c], s).store);
      TwiceAsOnce(server, op, c, s);
    }
  }

  lemma TwiceAsOnce(server: Server, op: KvOp, c: Command, s: Store)
    requires Standard(server)
    ensures Run(server, op, [c], Run(server, op, [c], s).store).store == Run(server, op, [c], s).store
  {
    RunOne(server, op, c, s);
    var t := Run(server, op, [c], s).store;
    RunOne(server, op, c, t);
    AssignLookup(s, Key(c), Effect(op, c, Lookup(s, Key(c))), Key(c));
    StoresEqual(Run(server, op, [c], t).store, t);
  }

  /** However often it is sent again, a command of any kind leaves the store of one; it is answered as a
      second one would be exactly if a lost attempt was applied. */
  lemma ResentAsOnce(server: Server, op: KvOp, c: Command, faults: seq<Fault>, s: Store)
    requires Standard(server)
    ensures Retried(server, op, c, faults, s).store == Run(server, op, [c], s).store
    ensures var reply := server(op, c, if Applied(faults) > 0 then Effect(op, c, Lookup(s, Key(c))) else Lookup(s, Key(c))).response;
            Retried(server, op, c, faults, s).responses == [if faults != [] && reply == "!duplicate_key" then "!ok" else reply]
  {
    ResentMeaning(server, op, c, faults, s);
    CopiesAsOne(server, op, c, Applied(faults), s);
    TwiceAsOnce(server, op, c, s);
    RunOne(server, op, c, s);
    RunOne(server, op, c, Run(server, op, [c], s).store);
    AssignLookup(s, Key(c), Effect(op, c, Lookup(s, Key(c))), Key(c));
  }

  /** However the connection fails, a command is sure to look as if it was sent once, exactly if the block's
      reply is not "!duplicate_key" and its reply to a second one reads the same. */
  lemma LooksOnceExactly(server: Server, op: KvOp, c: Command, s: Store)
    requires Standard(server)
    ensures var v := Lookup(s, Key(c));
            var first, second := server(op, c, v).response, server(op, c, Effect(op, c, v)).response;
            (forall faults :: Retried(server, op, c, faults, s) == Run(server, op, [c], s))
            <==> first != "!duplicate_key" && (second == first || (second == "!duplicate_key" && first == "!ok"))
  {
    RunOne(server, op, c, s);
    forall faults
      ensures var v := Lookup(s, Key(c));
              var reply := server(op, c, if Applied(faults) > 0 then Effect(op, c, v) else v).response;
              Retried(server, op, c, faults, s).responses == [if faults != [] && reply == "!duplicate_key" then "!ok" else reply]
      ensures Retried(server, op, c, faults, s).store == Run(server, op, [c], s).store
    {
      ResentAsOnce(server, op, c, faults, s);
    }
    var refused, lost := [Fault(true, false)], [Fault(true, true)];
    assert Applied(refused) == 0 && Applied(lost) == 1;
    assert Retried(server, op, c, refused, s).store == Retried(server, op, c, lost, s).store;
  }

  /** A get is sure to return what is stored, however the connection fails, exactly if that is not
      "!duplicate_key"; the store is left alone. */
  lemma ResentGetExactly(server: Server, c: Command, s: Store)
    requires ReadOnly(server) && Key(c) in s && server(Get, c, Some(s[Key(c)])).response == s[Key(c)]
    ensures (forall faults :: Retried(server, Get, c, faults, s) == Ran(s, [s[Key(c)]])) <==> s[Key(c)] != "!duplicate_key"
  {
    forall faults
      ensures Retried(server, Get, c, faults, s)
           == Ran(s, [if faults != [] && s[Key(c)] == "!duplicate_key" then "!ok" else s[Key(c)]])
    {
      ResentMeaning(server, Get, c, faults, s);
      RunGets(server, Copies(c, Applied(faults)), s);
      RunGets(server, [c], s);
    }
    assert Retried(server, Get, c, [Fault(true, false)], s).responses[0] == s[Key(c)] ==> s[Key(c)] != "!duplicate_key";
  }

  lemma {:induction false} ReplayedPut(server: Server, c: Command, faults: seq<Fault>, s: Store, retry: bool)
    requires Standard(server) && PutReplies(server)
    ensures var r := Replayed(server, Put, c, faults, s, retry);
            && r.store == (if Key(c) in s then s else s[Key(c) := Arg(c)])
            && r.responses == [if Key(c) in s && !retry && faults == [] then "!duplicate_key" else "!ok"]
    decreases |faults|
  {
    RunOne(server, Put, c, s);
    if Key(c) in s {
      assert s[Key(c) := s[Key(c)]] == s;
    }
    if faults == [] {
    } else {
      ReplayedPut(server, c, faults[1..], if faults[0].applied then Run(server, Put, [c], s).store else s, true);
    }
  }

  /** A put of a new key looks exactly-once: however the connection fails, the caller gets !ok and
      the store is that of one put. */
  lemma ExactlyOnce(server: Server, c: Command, faults: seq<Fault>, s: Store)
    requires Standard(server) && PutReplies(server) && Key(c) !in s
    ensures Retried(server, Put, c, faults, s) == Run(server, Put, [c], s)
    ensures Retried(server, Put, c, faults, s) == Ran(s[Key(c) := Arg(c)], ["!ok"])
  {
    ReplayedPut(server, c, faults, s, false);
    ReplayedPut(server, c, [], s, false);
  }

  /** For a key that may be present, !ok can be wrong: it says that the value is stored exactly when
      the key was new, already had that value, or no connection failed. */
  lemma OkMeansStored(server: Server, c: Command, faults: seq<Fault>, s: Store)
    requires Standard(server) && PutReplies(server)
    ensures var r := Retried(server, Put, c, faults, s);
            (r.responses[0] == "!ok" ==> Lookup(r.store, Key(c)) == Some(Arg(c)))
            <==> Key(c) !in s || s[Key(c)] == Arg(c) || faults == []
  {
    ReplayedPut(server, c, faults, s, false);
  }

  /** What a caller can tell beforehand: however the connection fails, !ok means stored, exactly when the
      key is new or already has that value. */
  lemma OkAlwaysMeansStored(server: Server, c: Command, s: Store)
    requires Standard(server) && PutReplies(server)
    ensures (forall faults :: Retried(server, Put, c, faults, s).responses[0] == "!ok" ==>
               Lookup(Retried(server, Put, c, faults, s).store, Key(c)) == Some(Arg(c)))
       <==> Key(c) !in s || s[Key(c)] == Arg(c)
  {
    if Key(c) !in s || s[Key(c)] == Arg(c) {
      forall faults | Retried(server, Put, c, faults, s).responses[0] == "!ok"
        ensures Lookup(Retried(server, Put, c, faults, s).store, Key(c)) == Some(Arg(c))
      {
        OkMeansStored(server, c, faults, s);
      }
    } else {
      var lost := [Fault(true, true)];
      OkMeansStored(server, c, lost, s);
      assert Retried(server, Put, c, lost, s).responses[0] == "!ok";
    }
  }
}
