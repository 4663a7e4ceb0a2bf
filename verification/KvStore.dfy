/** What a batch means: its commands run one by one, in order, on one flat map. The reply and
    the effect of a command depend only on the commands before it that name the same key. */
module KvStore {
  import opened Common

  type Store = map<string, string>

  datatype KvOp = Get | Put | Update | Remove

  /** The arguments of one command; the first is the key. */
  type Command = seq<string>

  datatype Outcome = Outcome(value: Option<string>, response: string)

  /** A block applies a command to the value stored under its key. Nothing else is known of it. */
  type Server = (KvOp, Command, Option<string>) -> Outcome

  function Key(c: Command): string {
    if c == [] then "" else c[0]
  }

  function Lookup(s: Store, k: string): Option<string> {
    if k in s then Some(s[k]) else None
  }

  function Assign(s: Store, k: string, v: Option<string>): Store {
    match v
    case Some(x) => s[k := x]
    case None => s - {k}
  }

  lemma AssignLookup(s: Store, k: string, v: Option<string>, j: string)
    ensures Lookup(Assign(s, k, v), j) == if j == k then v else Lookup(s, j)
  {
  }

  lemma StoresEqual(s: Store, t: Store)
    requires forall k :: Lookup(s, k) == Lookup(t, k)
    ensures s == t
  {
    forall k ensures k in s <==> k in t {
      assert Lookup(s, k) == Lookup(t, k);
    }
    forall k | k in s ensures s[k] == t[k] {
      assert Lookup(s, k) == Lookup(t, k);
    }
  }

  /** A flat argument vector read as commands of n arguments. */
  function Group(args: seq<string>, n: nat): seq<Command> {
    if n == 0 || |args| < n then [] else Group(args[..|args| - n], n) + [args[|args| - n..]]
  }

  lemma GroupAppend(args: seq<string>, c: Command)
    requires c != []
    ensures Group(args + c, |c|) == Group(args, |c|) + [c]
  {
    assert (args + c)[..|args + c| - |c|] == args;
    assert (args + c)[|args + c| - |c|..] == c;
  }

  datatype Ran = Ran(store: Store, responses: seq<string>)

  function Extend(server: Server, op: KvOp, before: Ran, c: Command): Ran {
    var o := server(op, c, Lookup(before.store, Key(c)));
    Ran(Assign(before.store, Key(c), o.value), before.responses + [o.response])
  }

  function Run(server: Server, op: KvOp, cs: seq<Command>, s: Store): (r: Ran)
    ensures |r.responses| == |cs|
  {
    if cs == [] then Ran(s, []) else
    Extend(server, op, Run(server, op, cs[..|cs| - 1], s), cs[|cs| - 1])
  }

  lemma RunSnoc(server: Server, op: KvOp, cs: seq<Command>, c: Command, s: Store)
    ensures Run(server, op, cs + [c], s) == Extend(server, op, Run(server, op, cs, s), c)
  {
    assert (cs + [c])[..|cs|] == cs;
  }

  lemma RunOne(server: Server, op: KvOp, c: Command, s: Store)
    ensures var o := server(op, c, Lookup(s, Key(c)));
            Run(server, op, [c], s) == Ran(Assign(s, Key(c), o.value), [o.response])
  {
    assert [c][..0] == [];
    assert Run(server, op, [], s) == Ran(s, []);
  }

  // One key at a time.

  /** The commands of cs that name key k. */
  function Only(cs: seq<Command>, k: string): seq<Command> {
    if cs == [] then [] else
    var before := Only(cs[..|cs| - 1], k);
    if Key(cs[|cs| - 1]) == k then before + [cs[|cs| - 1]] else before
  }

  lemma OnlySnoc(cs: seq<Command>, c: Command, k: string)
    ensures Only(cs + [c], k) == if Key(c) == k then Only(cs, k) + [c] else Only(cs, k)
  {
    assert (cs + [c])[..|cs|] == cs;
  }

  /** The value of one key after commands that all name it. */
  function Fold(server: Server, op: KvOp, cs: seq<Command>, v: Option<string>): Option<string> {
    if cs == [] then v else server(op, cs[|cs| - 1], Fold(server, op, cs[..|cs| - 1], v)).value
  }

  lemma {:induction false} StoreByKey(server: Server, op: KvOp, cs: seq<Command>, s: Store, k: string)
    ensures Lookup(Run(server, op, cs, s).store, k) == Fold(server, op, Only(cs, k), Lookup(s, k))
  {
    if cs == [] {
    } else {
      var before, c := cs[..|cs| - 1], cs[|cs| - 1];
      StoreByKey(server, op, before, s, k);
      var r := Run(server, op, before, s);
      AssignLookup(r.store, Key(c), server(op, c, Lookup(r.store, Key(c))).value, k);
      if Key(c) == k {
        var mine := Only(before, k);
        assert (mine + [c])[..|mine + [c]| - 1] == mine;
      }
    }
  }

  lemma {:induction false} RunPrefix(server: Server, op: KvOp, cs: seq<Command>, s: Store, n: nat)
    requires n <= |cs|
    ensures Run(server, op, cs[..n], s).responses == Run(server, op, cs, s).responses[..n]
  {
    if n == |cs| {
      assert cs[..n] == cs;
    } else {
      var before := cs[..|cs| - 1];
      RunPrefix(server, op, before, s, n);
      assert before[..n] == cs[..n];
    }
  }

  lemma ResponseByKey(server: Server, op: KvOp, cs: seq<Command>, s: Store, i: nat)
    requires i < |cs|
    ensures Run(server, op, cs, s).responses[i]
         == server(op, cs[i], Fold(server, op, Only(cs[..i], Key(cs[i])), Lookup(s, Key(cs[i])))).response
  {
    RunPrefix(server, op, cs, s, i + 1);
    assert cs[..i + 1][..i] == cs[..i];
    StoreByKey(server, op, cs[..i], s, Key(cs[i]));
    RunPrefix(server, op, cs, s, i);
    assert Run(server, op, cs[..i + 1], s).responses[i] == Run(server, op, cs, s).responses[i];
  }

  /** Sequences with the same commands for each key, in the same order, leave the same store. */
  lemma SamePerKey(server: Server, op: KvOp, cs: seq<Command>, ds: seq<Command>, s: Store)
    requires forall k :: Only(cs, k) == Only(ds, k)
    ensures Run(server, op, cs, s).store == Run(server, op, ds, s).store
  {
    forall k ensures Lookup(Run(server, op, cs, s).store, k) == Lookup(Run(server, op, ds, s).store, k) {
      StoreByKey(server, op, cs, s, k);
      StoreByKey(server, op, ds, s, k);
    }
    StoresEqual(Run(server, op, cs, s).store, Run(server, op, ds, s).store);
  }

  // Batches one after the other.

  lemma ExtendAfter(server: Server, op: KvOp, earlier: seq<string>, r: Ran, c: Command)
    ensures var e := Extend(server, op, r, c);
            Extend(server, op, Ran(r.store, earlier + r.responses), c) == Ran(e.store, earlier + e.responses)
  {
  }

  lemma {:induction false} RunConcat(server: Server, op: KvOp, cs: seq<Command>, ds: seq<Command>, s: Store)
    ensures var first := Run(server, op, cs, s);
            var second := Run(server, op, ds, first.store);
            Run(server, op, cs + ds, s) == Ran(second.store, first.responses + second.responses)
  {
    if ds == [] {
      assert cs + ds == cs;
    } else {
      var before, d := ds[..|ds| - 1], ds[|ds| - 1];
      RunConcat(server, op, cs, before, s);
      assert (cs + ds)[..|cs + ds| - 1] == cs + before && (cs + ds)[|cs + ds| - 1] == d;
      var first := Run(server, op, cs, s);
      ExtendAfter(server, op, first.responses, Run(server, op, before, first.store), d);
    }
  }

  lemma PrefixReply(server: Server, op: KvOp, cs: seq<Command>, all: seq<Command>, s: Store, i: nat)
    requires cs <= all && i < |cs|
    ensures Run(server, op, cs, s).responses[i] == Run(server, op, all, s).responses[i]
  {
    assert all[..|cs|] == cs;
    RunPrefix(server, op, all, s, |cs|);
    FirstReplies(Run(server, op, cs, s).responses, Run(server, op, all, s).responses, i);
  }

  lemma FirstReplies(some: seq<string>, all: seq<string>, i: nat)
    requires i < |some| <= |all| && some == all[..|some|]
    ensures some[i] == all[i]
  {
  }

  lemma RunLater(server: Server, op: KvOp, all: seq<Command>, cs: seq<Command>, ds: seq<Command>, s: Store, j: nat)
    requires all == cs + ds && j < |ds|
    ensures Run(server, op, all, s).responses[|cs| + j] == Run(server, op, ds, Run(server, op, cs, s).store).responses[j]
  {
    RunConcat(server, op, cs, ds, s);
    LaterReplies(Run(server, op, cs, s).responses, Run(server, op, ds, Run(server, op, cs, s).store).responses, j);
  }

  lemma LaterReplies(earlier: seq<string>, later: seq<string>, j: nat)
    requires j < |later|
    ensures (earlier + later)[|earlier| + j] == later[j]
  {
  }

  /** Get leaves every value alone. */
  ghost predicate ReadOnly(server: Server) {
    forall c, v :: server(Get, c, v).value == v
  }

  lemma {:induction false} RunGets(server: Server, cs: seq<Command>, s: Store)
    requires ReadOnly(server)
    ensures Run(server, Get, cs, s).store == s
    ensures forall i :: 0 <= i < |cs| ==>
              Run(server, Get, cs, s).responses[i] == server(Get, cs[i], Lookup(s, Key(cs[i]))).response
  {
    if cs == [] {
    } else {
      RunGets(server, cs[..|cs| - 1], s);
      StoresEqual(Run(server, Get, cs, s).store, s);
    }
  }
}
