/** put of one key: run_command on the block's chain, which replays the command when a connection fails, then
    handle_redirect, and all of it again when the block has moved. */
module SinglePut {
  import opened Common
  import opened KvStore
  import opened Redo
  import opened ReplicaChain

  /** How a pass ends: the block applies the command, or it exports and the chain it names applies it, or one
      of them has moved. */
  datatype Met = Here | Redirected | Moved

  /** The connections that fail first, and how the pass ends. */
  datatype PutPass = PutPass(faults: seq<Fault>, met: Met)

  /** What the attempts whose connection failed have left. */
  function Lost(server: Server, c: Command, faults: seq<Fault>, s: Store): Store {
    if faults == [] then s
    else Lost(server, c, faults[1..], if faults[0].applied then Run(server, Put, [c], s).store else s)
  }

  datatype Ended = Ended(store: Store, reply: Option<string>)

  /** One pass. run_command answers !ok for a duplicate after a failure; the chain of an exporting block is
      asked by run_command_redirected, which does not. */
  function PassOnce(server: Server, c: Command, p: PutPass, s: Store): Ended {
    match p.met
    case Here => var r := Retried(server, Put, c, p.faults, s); Ended(r.store, Some(r.responses[0]))
    case Redirected =>
      var r := Run(server, Put, [c], Lost(server, c, p.faults, s)); Ended(r.store, Some(r.responses[0]))
    case Moved => Ended(Lost(server, c, p.faults, s), None)
  }

  function PutOnce(server: Server, c: Command, passes: seq<PutPass>, s: Store): Ended {
    if passes == [] then Ended(s, None) else
    var r := PassOnce(server, c, passes[0], s);
    if r.reply.Some? then r else PutOnce(server, c, passes[1..], r.store)
  }

  /** put. None: after these passes it has not returned. */
  method PutKey(server: Server, c: Command, passes: seq<PutPass>, s: Store) returns (store: Store, reply: Option<string>)
    ensures Ended(store, reply) == PutOnce(server, c, passes, s)
  {
    var rest, redo := passes, true;
    store, reply := s, None;
    while redo && rest != []
      invariant redo ==> reply == None && PutOnce(server, c, rest, store) == PutOnce(server, c, passes, s)
      invariant !redo ==> Ended(store, reply) == PutOnce(server, c, passes, s)
      decreases redo, |rest|
    {
      var r := PassOnce(server, c, rest[0], store);
      store, reply := r.store, r.reply;
      redo := reply.None?;
      rest := rest[1..];
    }
  }

  // What it comes to.

  predicate AnyApplied(faults: seq<Fault>) {
    exists f :: 0 <= f < |faults| && faults[f].applied
  }

  lemma AnyAppliedNext(faults: seq<Fault>)
    requires faults != []
    ensures AnyApplied(faults) <==> faults[0].applied || AnyApplied(faults[1..])
  {
    if f :| 0 < f < |faults| && faults[f].applied {
      assert faults[1..][f - 1].applied;
    }
    if f :| 0 <= f < |faults[1..]| && faults[1..][f].applied {
      assert faults[f + 1].applied;
    }
  }

  lemma PutRuns(server: Server, c: Command, s: Store)
    requires Standard(server) && PutReplies(server)
    ensures Run(server, Put, [c], s)
         == if Key(c) in s then Ran(s, ["!duplicate_key"]) else Ran(s[Key(c) := Arg(c)], ["!ok"])
  {
    RunOne(server, Put, c, s);
    if Key(c) in s {
      assert s[Key(c) := s[Key(c)]] == s;
    }
  }

  lemma {:induction false} LostPut(server: Server, c: Command, faults: seq<Fault>, s: Store)
    requires Standard(server) && PutReplies(server)
    ensures Lost(server, c, faults, s) == if Key(c) !in s && AnyApplied(faults) then s[Key(c) := Arg(c)] else s
    decreases |faults|
  {
    if faults == [] {
    } else {
      PutRuns(server, c, s);
      AnyAppliedNext(faults);
      LostPut(server, c, faults[1..], if faults[0].applied then Run(server, Put, [c], s).store else s);
    }
  }

  /** The first pass that is not sent again. */
  function LastPass(passes: seq<PutPass>): (k: nat)
    ensures k <= |passes| && (k < |passes| ==> passes[k].met != Moved)
  {
    if passes == [] || passes[0].met != Moved then 0 else 1 + LastPass(passes[1..])
  }

  /** A put returns exactly if some pass does not find its block or chain moved, whatever fails. */
  lemma {:induction false} PutReturns(server: Server, c: Command, passes: seq<PutPass>, s: Store)
    ensures PutOnce(server, c, passes, s).reply.Some? <==> exists k :: 0 <= k < |passes| && passes[k].met != Moved
  {
    if passes == [] {
    } else {
      var r := PassOnce(server, c, passes[0], s);
      PutReturns(server, c, passes[1..], r.store);
      assert forall k :: 0 <= k < |passes[1..]| ==> passes[1..][k] == passes[k + 1];
      assert forall k :: 0 < k < |passes| ==> passes[k] == passes[1..][k - 1];
    }
  }

  /** A pass before the last applied the put and lost the answer. */
  predicate AppliedBefore(passes: seq<PutPass>) {
    exists a :: 0 <= a < LastPass(passes) && AnyApplied(passes[a].faults)
  }

  lemma AppliedBeforeNext(passes: seq<PutPass>)
    requires passes != [] && passes[0].met == Moved
    ensures AppliedBefore(passes) <==> AnyApplied(passes[0].faults) || AppliedBefore(passes[1..])
  {
    if a :| 0 < a < LastPass(passes) && AnyApplied(passes[a].faults) {
      assert passes[1..][a - 1] == passes[a];
    }
    if a :| 0 <= a < LastPass(passes[1..]) && AnyApplied(passes[1..][a].faults) {
      assert passes[a + 1] == passes[1..][a];
    }
  }

  /** The answer is that of a put that is replayed on its own chain, or of one that nobody has applied. */
  predicate LooksNew(passes: seq<PutPass>)
    requires LastPass(passes) < |passes|
  {
    var last := passes[LastPass(passes)];
    (last.met == Here && last.faults != []) || (!AppliedBefore(passes) && !AnyApplied(last.faults))
  }

  /** For a new key the put is stored in the end, once; and it is answered !ok exactly if nobody has applied
      it before the pass that returns, or that pass replays it on the block's own chain. */
  lemma {:induction false} PutNewKeyExactly(server: Server, c: Command, passes: seq<PutPass>, s: Store)
    requires Standard(server) && PutReplies(server) && Key(c) !in s && LastPass(passes) < |passes|
    ensures PutOnce(server, c, passes, s)
         == Ended(s[Key(c) := Arg(c)], Some(if LooksNew(passes) then "!ok" else "!duplicate_key"))
  {
    var p := passes[0];
    LostPut(server, c, p.faults, s);
    if p.met == Moved {
      AppliedBeforeNext(passes);
      if AnyApplied(p.faults) {
        PutAgain(server, c, passes[1..], s[Key(c) := Arg(c)]);
      } else {
        PutNewKeyExactly(server, c, passes[1..], s);
      }
    } else {
      LastPut(server, c, p, s);
    }
  }

  lemma LastPut(server: Server, c: Command, p: PutPass, s: Store)
    requires Standard(server) && PutReplies(server) && p.met != Moved
    ensures PassOnce(server, c, p, s)
         == Ended(if Key(c) in s then s else s[Key(c) := Arg(c)],
                   Some(if (p.met == Here && p.faults != []) || (Key(c) !in s && !AnyApplied(p.faults)) then "!ok" else "!duplicate_key"))
  {
    LostPut(server, c, p.faults, s);
    PutRuns(server, c, Lost(server, c, p.faults, s));
    ReplayedPut(server, c, p.faults, s, false);
  }

  /** A put whose key is there, its own earlier pass having applied it. */
  lemma {:induction false} PutAgain(server: Server, c: Command, passes: seq<PutPass>, s: Store)
    requires Standard(server) && PutReplies(server) && Key(c) in s && LastPass(passes) < |passes|
    ensures var last := passes[LastPass(passes)];
            PutOnce(server, c, passes, s)
            == Ended(s, Some(if last.met == Here && last.faults != [] then "!ok" else "!duplicate_key"))
  {
    var p := passes[0];
    LostPut(server, c, p.faults, s);
    if p.met == Moved {
      PutAgain(server, c, passes[1..], s);
    } else {
      LastPut(server, c, p, s);
    }
  }

  /** Where no connection fails, or no block moves, a put of a new key is answered !ok; */
  lemma CalmPut(server: Server, c: Command, passes: seq<PutPass>, s: Store)
    requires Standard(server) && PutReplies(server) && Key(c) !in s && LastPass(passes) < |passes|
    requires (forall a :: 0 <= a < |passes| ==> passes[a].faults == []) || passes[0].met == Here
    ensures PutOnce(server, c, passes, s).reply == Some("!ok")
  {
    PutNewKeyExactly(server, c, passes, s);
    assert !AppliedBefore(passes);
  }

  /** but one that is applied, loses its answer and finds its block exporting is not. */
  lemma ExportedPut(server: Server, c: Command, s: Store)
    requires Standard(server) && PutReplies(server) && Key(c) !in s
    ensures PutOnce(server, c, [PutPass([Fault(false, true)], Redirected)], s)
         == Ended(s[Key(c) := Arg(c)], Some("!duplicate_key"))
  {
    var passes := [PutPass([Fault(false, true)], Redirected)];
    PutNewKeyExactly(server, c, passes, s);
    assert AnyApplied(passes[0].faults) by {
      assert passes[0].faults[0].applied;
    }
  }
}
