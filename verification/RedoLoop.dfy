/** The redo loop of put, get, update and remove: attempt after attempt, until one is not given up. */
module RedoLoop {
  import opened Common
  import opened KvStore
  import opened Attempts
  import opened RedirectedBatch
  import opened Redo

  predicate AllLegal(es: seq<Episode>, cs: seq<Command>) {
    forall a :: 0 <= a < |es| ==> Legal(es[a], cs)
  }

  /** What the batch comes to: the replies of the first attempt that is not given up, if there is one. */
  function Redone(server: Server, op: KvOp, cs: seq<Command>, es: seq<Episode>, s: Store): (p: Pass)
    requires AllLegal(es, cs)
    ensures p.replies.Some? ==> |p.replies.value| == |cs|
  {
    if es == [] then Pass(s, None) else
    var p := Tried(server, op, cs, es[0], s);
    if p.replies.Some? then p else Redone(server, op, cs, es[1..], p.store)
  }

  /** What the attempts that are given up apply, one after the other. */
  function Aborted(server: Server, op: KvOp, cs: seq<Command>, es: seq<Episode>, s: Store): (a: seq<seq<Command>>)
    requires AllLegal(es, cs)
    ensures |a| <= |es|
  {
    if es == [] then [] else
    var p, rs := Tried(server, op, cs, es[0], s), Run(server, op, cs, s).responses;
    if p.replies.Some? then [] else [Applied(cs, es[0], rs)] + Aborted(server, op, cs, es[1..], p.store)
  }

  lemma {:induction false} AbortedPrefixes(server: Server, op: KvOp, cs: seq<Command>, es: seq<Episode>, s: Store)
    requires AllLegal(es, cs)
    ensures AllPrefixes(Aborted(server, op, cs, es, s), cs)
  {
    if es == [] || Tried(server, op, cs, es[0], s).replies.Some? {
    } else {
      AppliedIsPrefix(cs, es[0], Run(server, op, cs, s).responses);
      AbortedPrefixes(server, op, cs, es[1..], Tried(server, op, cs, es[0], s).store);
    }
  }

  /** The slot table after k attempts were given up: each has left that of the directory. */
  function Table(es: seq<Episode>, k: nat, slots: seq<int>): seq<int>
    requires k <= |es|
  {
    if k == 0 then slots else es[k - 1].slots
  }

  /** The slot table the client is left with. */
  function LastTable(server: Server, op: KvOp, cs: seq<Command>, es: seq<Episode>, s: Store, slots: seq<int>): seq<int>
    requires AllLegal(es, cs)
  {
    Table(es, |Aborted(server, op, cs, es, s)|, slots)
  }

  lemma AbortedNext(server: Server, op: KvOp, cs: seq<Command>, es: seq<Episode>, s: Store)
    requires AllLegal(es, cs) && es != [] && AllLegal(es[1..], cs)
    ensures |Aborted(server, op, cs, es, s)|
         == if Tried(server, op, cs, es[0], s).replies.Some? then 0
            else 1 + |Aborted(server, op, cs, es[1..], Tried(server, op, cs, es[0], s).store)|
  {
  }

  lemma TableNext(es: seq<Episode>, k: nat, slots: seq<int>)
    requires k < |es|
    ensures Table(es, k + 1, slots) == Table(es[1..], k, es[0].slots)
  {
  }

  lemma LastTableNext(server: Server, op: KvOp, cs: seq<Command>, es: seq<Episode>, s: Store, slots: seq<int>)
    requires AllLegal(es, cs) && es != [] && AllLegal(es[1..], cs)
    ensures LastTable(server, op, cs, es, s, slots)
         == if Tried(server, op, cs, es[0], s).replies.Some? then slots
            else LastTable(server, op, cs, es[1..], Tried(server, op, cs, es[0], s).store, es[0].slots)
  {
    AbortedNext(server, op, cs, es, s);
    if Tried(server, op, cs, es[0], s).replies.None? {
      TableNext(es, |Aborted(server, op, cs, es[1..], Tried(server, op, cs, es[0], s).store)|, slots);
    }
  }

  function Ending(server: Server, op: KvOp, cs: seq<Command>, es: seq<Episode>, k: nat, t: Store): Pass
    requires AllLegal(es, cs) && k <= |es|
  {
    if k == |es| then Pass(t, None) else Tried(server, op, cs, es[k], t)
  }

  /** The loop is the attempts given up and then one more, on what they left. */
  lemma {:induction false} RedoneAfter(server: Server, op: KvOp, cs: seq<Command>, es: seq<Episode>, s: Store)
    requires AllLegal(es, cs)
    ensures var attempts := Aborted(server, op, cs, es, s);
            Redone(server, op, cs, es, s) == Ending(server, op, cs, es, |attempts|, After(server, op, attempts, s))
  {
    if es == [] || Tried(server, op, cs, es[0], s).replies.Some? {
    } else {
      var t := Tried(server, op, cs, es[0], s).store;
      RedoneAfter(server, op, cs, es[1..], t);
      assert Aborted(server, op, cs, es, s)[1..] == Aborted(server, op, cs, es[1..], t);
    }
  }

  lemma {:induction false} AbortedAll(server: Server, op: KvOp, cs: seq<Command>, es: seq<Episode>, s: Store)
    requires AllLegal(es, cs)
    ensures Redone(server, op, cs, es, s).replies.Some? <==> |Aborted(server, op, cs, es, s)| < |es|
  {
    if es == [] || Tried(server, op, cs, es[0], s).replies.Some? {
    } else {
      AbortedAll(server, op, cs, es[1..], Tried(server, op, cs, es[0], s).store);
    }
  }

  lemma RedoneNext(server: Server, op: KvOp, cs: seq<Command>, es: seq<Episode>, s: Store)
    requires AllLegal(es, cs) && es != []
    ensures AllLegal(es[1..], cs)
    ensures var p := Tried(server, op, cs, es[0], s);
            Redone(server, op, cs, es, s) == if p.replies.Some? then p else Redone(server, op, cs, es[1..], p.store)
  {
  }

  /** However many attempts are given up, wherever their blocks and chains moved, a batch that returns
      leaves the store of one attempt. */
  lemma RedoneAsOnce(server: Server, op: KvOp, cs: seq<Command>, es: seq<Episode>, s: Store)
    requires Standard(server) && AllLegal(es, cs) && Redone(server, op, cs, es, s).replies.Some?
    ensures Redone(server, op, cs, es, s).store == Run(server, op, cs, s).store
  {
    AbortedPrefixes(server, op, cs, es, s);
    AbortedAll(server, op, cs, es, s);
    RedoneAfter(server, op, cs, es, s);
    RedoSafe(server, op, Aborted(server, op, cs, es, s), cs, s);
  }

  // Gets.

  /** A get is answered with the value. */
  ghost predicate Echoes(server: Server) {
    forall c: Command, v: Option<string> :: if v.Some? then server(Get, c, v).response == v.value else Plain(server(Get, c, v).response)
  }

  /** What is stored under the keys reads like no sign. */
  predicate PlainValues(cs: seq<Command>, s: Store) {
    forall i :: 0 <= i < |cs| && Key(cs[i]) in s ==> Plain(s[Key(cs[i])])
  }

  lemma EchoesPlain(server: Server, cs: seq<Command>, s: Store)
    requires ReadOnly(server) && Echoes(server)
    ensures AllPlain(Run(server, Get, cs, s).responses) <==> PlainValues(cs, s)
  {
    RunGets(server, cs, s);
    forall i | 0 <= i < |cs|
      ensures Plain(Run(server, Get, cs, s).responses[i]) <==> Key(cs[i]) in s ==> Plain(s[Key(cs[i])])
    {
      assert Run(server, Get, cs, s).responses[i] == server(Get, cs[i], Lookup(s, Key(cs[i]))).response;
    }
  }

  /** A get during which nothing moves returns what is stored exactly when that reads like no sign. */
  lemma GetExactly(server: Server, cs: seq<Command>, e: Episode, s: Store)
    requires ReadOnly(server) && Echoes(server) && Legal(e, cs) && Unmoved(e)
    ensures Tried(server, Get, cs, e, s) == Pass(s, Some(Run(server, Get, cs, s).responses)) <==> PlainValues(cs, s)
  {
    RunGets(server, cs, s);
    EchoesPlain(server, cs, s);
    TriedExactly(server, Get, cs, e, s);
  }

  lemma TriedGet(server: Server, cs: seq<Command>, e: Episode, s: Store)
    requires ReadOnly(server) && Legal(e, cs)
    ensures Tried(server, Get, cs, e, s).store == s
  {
    RunGets(server, cs, s);
    RunGets(server, Applied(cs, e, Run(server, Get, cs, s).responses), s);
  }

  /** What a get returns for a command that is answered r. */
  predicate GetReply(reply: string, r: string) {
    r != MOVED && reply != MOVED && (reply == r <==> Plain(r))
  }

  /** A get leaves the store alone, however often it is resent; what it returns for a command is the
      reply of one run exactly if that reads like no sign. */
  lemma {:induction false} RedoneGets(server: Server, cs: seq<Command>, es: seq<Episode>, s: Store)
    requires ReadOnly(server) && AllLegal(es, cs)
    ensures var p, rs := Redone(server, Get, cs, es, s), Run(server, Get, cs, s).responses;
            && p.store == s
            && (p.replies.Some? ==>
                  forall i :: 0 <= i < |cs| ==> GetReply(p.replies.value[i], rs[i]))
  {
    if es == [] {
    } else {
      var rs := Run(server, Get, cs, s).responses;
      TriedGet(server, cs, es[0], s);
      if Stops(es[0], rs) {
        RedoneGets(server, cs, es[1..], s);
      } else {
        forall i | 0 <= i < |cs| ensures GetReply(Finals(es[0], rs)[i], rs[i]) {
          MovedIsFinal();
          assert !StopsHere(es[0], rs, i);
        }
      }
    }
  }

  /** A get returns exactly when some attempt ends in no moved sign. */
  lemma {:induction false} GetReturns(server: Server, cs: seq<Command>, es: seq<Episode>, s: Store)
    requires ReadOnly(server) && AllLegal(es, cs)
    ensures Redone(server, Get, cs, es, s).replies.Some?
       <==> exists a :: 0 <= a < |es| && !Stops(es[a], Run(server, Get, cs, s).responses)
  {
    if es == [] {
    } else {
      TriedGet(server, cs, es[0], s);
      GetReturns(server, cs, es[1..], s);
      assert forall a :: 0 <= a < |es[1..]| ==> es[1..][a] == es[a + 1];
    }
  }

  /** A get can return exactly when no value it reads is !block_moved: such a value is taken for the sign
      in every attempt, whatever moves, and the batch is sent again for ever. */
  lemma GetReturnsExactly(server: Server, cs: seq<Command>, s: Store)
    requires ReadOnly(server) && Echoes(server)
    ensures (exists es :: AllLegal(es, cs) && Redone(server, Get, cs, es, s).replies.Some?)
       <==> forall i :: 0 <= i < |cs| && Key(cs[i]) in s ==> s[Key(cs[i])] != MOVED
  {
    var rs := Run(server, Get, cs, s).responses;
    RunGets(server, cs, s);
    assert forall i :: 0 <= i < |cs| ==> rs[i] == server(Get, cs[i], Lookup(s, Key(cs[i]))).response;
    if forall i :: 0 <= i < |cs| && Key(cs[i]) in s ==> s[Key(cs[i])] != MOVED {
      var e := Still(|cs|, [0]);
      StillIsLegal(cs, [0]);
      assert !Stops(e, rs);
      GetReturns(server, cs, [e], s);
      assert [e][0] == e && AllLegal([e], cs);
    }
    if es :| AllLegal(es, cs) && Redone(server, Get, cs, es, s).replies.Some? {
      RedoneGets(server, cs, es, s);
    }
  }

  // The replies of a resent put.

  /** A put is never answered with anything that reads like a sign. */
  lemma PutsArePlain(server: Server, cs: seq<Command>, s: Store)
    requires Standard(server) && PutReplies(server)
    ensures AllPlain(Run(server, Put, cs, s).responses)
  {
    forall i | 0 <= i < |cs| ensures Plain(Run(server, Put, cs, s).responses[i]) {
      PutReply(server, cs, s, i);
      assert "!duplicate_key"[1] == 'd' && "!exporting"[1] == 'e' && MOVED[1] == 'b';
    }
  }

  /** So an attempt at a put is given up exactly when some command is not applied. */
  lemma TriedPut(server: Server, cs: seq<Command>, e: Episode, s: Store)
    requires Standard(server) && PutReplies(server) && Legal(e, cs)
    ensures if AllApplied(e)
            then Tried(server, Put, cs, e, s) == Pass(Run(server, Put, cs, s).store, Some(Run(server, Put, cs, s).responses))
            else Tried(server, Put, cs, e, s).replies == None
  {
    PutsArePlain(server, cs, s);
    TriedExactly(server, Put, cs, e, s);
    if i: nat :| i < |cs| && !Applies(e, i) {
      assert StopsHere(e, Run(server, Put, cs, s).responses, i);
    }
  }

  /** A put that returns gives the replies of one attempt on what those given up have left. */
  lemma RedonePut(server: Server, cs: seq<Command>, es: seq<Episode>, s: Store)
    requires Standard(server) && PutReplies(server) && AllLegal(es, cs) && Redone(server, Put, cs, es, s).replies.Some?
    ensures Redone(server, Put, cs, es, s).replies
         == Some(Run(server, Put, cs, After(server, Put, Aborted(server, Put, cs, es, s), s)).responses)
  {
    var attempts := Aborted(server, Put, cs, es, s);
    AbortedAll(server, Put, cs, es, s);
    RedoneAfter(server, Put, cs, es, s);
    TriedPut(server, cs, es[|attempts|], After(server, Put, attempts, s));
  }

  lemma SomeApplied(cs: seq<Command>, es: seq<Episode>)
    requires AllLegal(es, cs) && es != []
    ensures (exists a :: 0 <= a < |es| && AllApplied(es[a]))
       <==> AllApplied(es[0]) || exists a :: 0 <= a < |es[1..]| && AllApplied(es[1..][a])
  {
    assert forall a :: 0 <= a < |es[1..]| ==> es[1..][a] == es[a + 1];
    if a :| 0 < a < |es| && AllApplied(es[a]) {
      assert es[1..][a - 1] == es[a];
    }
  }

  /** A put returns exactly when some attempt applies every command. */
  lemma {:induction false} PutReturns(server: Server, cs: seq<Command>, es: seq<Episode>, s: Store)
    requires Standard(server) && PutReplies(server) && AllLegal(es, cs)
    ensures Redone(server, Put, cs, es, s).replies.Some?
       <==> exists a :: 0 <= a < |es| && AllApplied(es[a])
  {
    if es == [] {
    } else {
      TriedPut(server, cs, es[0], s);
      SomeApplied(cs, es);
      if !AllApplied(es[0]) {
        PutReturns(server, cs, es[1..], Tried(server, Put, cs, es[0], s).store);
      }
    }
  }

  /** Command d and the later ones on its key find their block moved. */
  function MovesAt(cs: seq<Command>, d: nat): Episode
    requires d < |cs|
  {
    Episode(seq(|cs|, i requires 0 <= i < |cs| => if i >= d && Key(cs[i]) == Key(cs[d]) then Some(MOVED) else None),
            seq(|cs|, _ => Route([], true, [], "")), [0])
  }

  /** The attempt is given up, but the other commands before it, and on other keys, are applied. */
  lemma MovesAtApplies(cs: seq<Command>, d: nat, f: nat, rs: seq<string>)
    requires d < |cs| == |rs| && f < |cs| && (f < d || Key(cs[f]) != Key(cs[d]))
    ensures Legal(MovesAt(cs, d), cs) && Stops(MovesAt(cs, d), rs)
    ensures Only(Applied(cs, MovesAt(cs, d), rs), Key(cs[f])) != []
  {
    var e := MovesAt(cs, d);
    assert StopsHere(e, rs, d);
    var stay, m := Pick(cs, Gone(e.away), false, |cs|), |Pick(cs, Gone(e.away), false, f)|;
    PickPrefix(cs, Gone(e.away), false, f, |cs|);
    assert Applied(cs, e, rs)[m] == cs[f];
    OnlyMember(Applied(cs, e, rs), m);
  }

  lemma LoneStop(cs: seq<Command>, e: Episode, rs: seq<string>)
    requires Legal(e, cs) && |cs| == |rs| <= 1 && AllPlain(rs) && Stops(e, rs)
    ensures Applied(cs, e, rs) == []
  {
    StopStep(e, rs, 0);
  }

  /** A single put that is given up has not been applied. */
  lemma {:induction false} LoneAborted(server: Server, cs: seq<Command>, es: seq<Episode>, s: Store, a: nat)
    requires Standard(server) && PutReplies(server)
    requires AllLegal(es, cs) && |cs| <= 1 && a < |Aborted(server, Put, cs, es, s)|
    ensures Aborted(server, Put, cs, es, s)[a] == []
  {
    if a == 0 {
      PutsArePlain(server, cs, s);
      LoneStop(cs, es[0], Run(server, Put, cs, s).responses);
    } else {
      LoneAborted(server, cs, es[1..], Tried(server, Put, cs, es[0], s).store, a - 1);
    }
  }

  /** What a caller of put can tell beforehand: whatever moves meanwhile, the replies are those of one
      attempt, exactly for a single pair or when all keys are there already. */
  lemma RepliesSafe(server: Server, cs: seq<Command>, s: Store)
    requires Standard(server) && PutReplies(server)
    ensures (forall es :: AllLegal(es, cs) && Redone(server, Put, cs, es, s).replies.Some? ==>
               Redone(server, Put, cs, es, s).replies.value == Run(server, Put, cs, s).responses)
       <==> |cs| <= 1 || forall i :: 0 <= i < |cs| ==> Key(cs[i]) in s
  {
    if |cs| <= 1 || forall i :: 0 <= i < |cs| ==> Key(cs[i]) in s {
      forall es | AllLegal(es, cs) && Redone(server, Put, cs, es, s).replies.Some?
        ensures Redone(server, Put, cs, es, s).replies.value == Run(server, Put, cs, s).responses
      {
        SafeReplies(server, cs, es, s);
      }
    } else {
      var f :| 0 <= f < |cs| && Key(cs[f]) !in s;
      var es := UnsafeReplies(server, cs, s, f);
    }
  }

  lemma SafeReplies(server: Server, cs: seq<Command>, es: seq<Episode>, s: Store)
    requires Standard(server) && PutReplies(server) && AllLegal(es, cs) && Redone(server, Put, cs, es, s).replies.Some?
    requires |cs| <= 1 || forall i :: 0 <= i < |cs| ==> Key(cs[i]) in s
    ensures Redone(server, Put, cs, es, s).replies.value == Run(server, Put, cs, s).responses
  {
    var attempts := Aborted(server, Put, cs, es, s);
    AbortedPrefixes(server, Put, cs, es, s);
    RedonePut(server, cs, es, s);
    RedoReplies(server, attempts, cs, s);
    if |cs| <= 1 {
      forall a | 0 <= a < |attempts| ensures attempts[a] == [] {
        LoneAborted(server, cs, es, s, a);
      }
    } else {
      PrefixKeys(attempts, cs, s);
    }
  }

  lemma UnsafeReplies(server: Server, cs: seq<Command>, s: Store, i: nat) returns (es: seq<Episode>)
    requires Standard(server) && PutReplies(server) && |cs| > 1 && i < |cs| && Key(cs[i]) !in s
    ensures AllLegal(es, cs) && Redone(server, Put, cs, es, s).replies.Some?
    ensures Redone(server, Put, cs, es, s).replies.value != Run(server, Put, cs, s).responses
  {
    OnlyMember(cs, i);
    var f := OnlyFirst(cs, Key(cs[i]));
    var d := if f == 0 then 1 else 0;
    if f != 0 {
      OnlyMember(cs[..f], 0);
    }
    var rs := Run(server, Put, cs, s).responses;
    MovesAtApplies(cs, d, f, rs);
    var e := MovesAt(cs, d);
    es := [e, Still(|cs|, [0])];
    StillIsLegal(cs, [0]);
    OneAborted(server, cs, e, es, s);
    RedonePut(server, cs, es, s);
    ReplyDiffers(server, Aborted(server, Put, cs, es, s), cs, s, f);
  }

  lemma OneAborted(server: Server, cs: seq<Command>, e: Episode, es: seq<Episode>, s: Store)
    requires Standard(server) && PutReplies(server) && Legal(e, cs) && Stops(e, Run(server, Put, cs, s).responses)
    requires es == [e, Still(|cs|, [0])] && AllLegal(es, cs)
    ensures Redone(server, Put, cs, es, s).replies.Some?
    ensures Aborted(server, Put, cs, es, s) == [Applied(cs, e, Run(server, Put, cs, s).responses)]
  {
    var t := Tried(server, Put, cs, e, s).store;
    assert es[1..] == [Still(|cs|, [0])];
    TriedPut(server, cs, Still(|cs|, [0]), t);
    assert Aborted(server, Put, cs, es[1..], t) == [];
  }

  lemma ReplyDiffers(server: Server, attempts: seq<seq<Command>>, cs: seq<Command>, s: Store, f: nat)
    requires Standard(server) && PutReplies(server) && f < |cs| && Key(cs[f]) !in s
    requires Only(cs[..f], Key(cs[f])) == [] && Touches(attempts, Key(cs[f]))
    ensures Run(server, Put, cs, After(server, Put, attempts, s)).responses != Run(server, Put, cs, s).responses
  {
    PutReply(server, cs, s, f);
    ResentReply(server, attempts, cs, s, f);
  }
}
