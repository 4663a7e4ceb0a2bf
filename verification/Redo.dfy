/** A batch that meets a moved block is resent whole. Each attempt that is cut short has applied,
    for every key, some of the first commands on that key; resending must still leave the store
    one complete attempt leaves. */
module Redo {
  import opened Common
  import opened KvStore

  function Arg(c: Command): string {
    if |c| > 1 then c[1] else ""
  }

  /** What each kind of command does to the value of its key. */
  function Effect(op: KvOp, c: Command, v: Option<string>): Option<string> {
    match op
    case Get => v
    case Put => if v.Some? then v else Some(Arg(c))
    case Update => if v.Some? then Some(Arg(c)) else None
    case Remove => None
  }

  ghost predicate Standard(server: Server) {
    forall op, c, v :: server(op, c, v).value == Effect(op, c, v)
  }

  /** A put of a new key and an update of one that is there store the value given; a remove takes it away. */
  lemma Stores(server: Server, k: string, v: string, more: Command, s: Store)
    requires Standard(server)
    ensures Run(server, Put, [[k, v] + more], s).store == if k in s then s else s[k := v]
    ensures Run(server, Update, [[k, v] + more], s).store == if k in s then s[k := v] else s
    ensures Run(server, Remove, [[k] + more], s).store == s - {k}
  {
    RunOne(server, Put, [k, v] + more, s);
    RunOne(server, Update, [k, v] + more, s);
    RunOne(server, Remove, [k] + more, s);
    if k in s {
      assert s[k := s[k]] == s;
    } else {
      assert s - {k} == s;
    }
  }

  ghost predicate PutReplies(server: Server) {
    forall c, v :: server(Put, c, v).response == if v.None? then "!ok" else "!duplicate_key"
  }

  /** For each key, applied starts the commands of cs on that key. */
  ghost predicate KeyPrefix(applied: seq<Command>, cs: seq<Command>) {
    forall k :: Only(applied, k) <= Only(cs, k)
  }

  ghost predicate AllPrefixes(attempts: seq<seq<Command>>, cs: seq<Command>) {
    forall i :: 0 <= i < |attempts| ==> KeyPrefix(attempts[i], cs)
  }

  /** The store after the attempts that were cut short. */
  ghost function After(server: Server, op: KvOp, attempts: seq<seq<Command>>, s: Store): Store {
    if attempts == [] then s else After(server, op, attempts[1..], Run(server, op, attempts[0], s).store)
  }

  lemma {:induction false} FoldStandard(server: Server, op: KvOp, cs: seq<Command>, v: Option<string>)
    requires Standard(server)
    ensures Fold(server, op, cs, v)
         == if cs == [] || op == Get then v
            else match op
                 case Put => if v.Some? then v else Some(Arg(cs[0]))
                 case Update => if v.Some? then Some(Arg(cs[|cs| - 1])) else None
                 case _ => None
  {
    if cs == [] {
    } else {
      FoldStandard(server, op, cs[..|cs| - 1], v);
    }
  }

  /** Commands of one kind absorb a prefix of themselves. */
  lemma FoldAbsorbs(server: Server, op: KvOp, p: seq<Command>, cs: seq<Command>, v: Option<string>)
    requires Standard(server) && p <= cs
    ensures Fold(server, op, cs, Fold(server, op, p, v)) == Fold(server, op, cs, v)
  {
    FoldStandard(server, op, p, v);
    FoldStandard(server, op, cs, v);
    FoldStandard(server, op, cs, Fold(server, op, p, v));
  }

  lemma AttemptAbsorbed(server: Server, op: KvOp, applied: seq<Command>, cs: seq<Command>, s: Store)
    requires Standard(server) && KeyPrefix(applied, cs)
    ensures Run(server, op, cs, Run(server, op, applied, s).store).store == Run(server, op, cs, s).store
  {
    var t := Run(server, op, applied, s).store;
    forall k ensures Lookup(Run(server, op, cs, t).store, k) == Lookup(Run(server, op, cs, s).store, k) {
      StoreByKey(server, op, cs, t, k);
      StoreByKey(server, op, applied, s, k);
      StoreByKey(server, op, cs, s, k);
      FoldAbsorbs(server, op, Only(applied, k), Only(cs, k), Lookup(s, k));
    }
    StoresEqual(Run(server, op, cs, t).store, Run(server, op, cs, s).store);
  }

  /** Redo safety: any number of attempts cut short, then one complete attempt, leave the store
      of a single complete attempt. */
  lemma {:induction false} RedoSafe(server: Server, op: KvOp, attempts: seq<seq<Command>>, cs: seq<Command>, s: Store)
    requires Standard(server) && AllPrefixes(attempts, cs)
    ensures Run(server, op, cs, After(server, op, attempts, s)).store == Run(server, op, cs, s).store
  {
    if attempts == [] {
    } else {
      assert KeyPrefix(attempts[0], cs);
      assert AllPrefixes(attempts[1..], cs);
      RedoSafe(server, op, attempts[1..], cs, Run(server, op, attempts[0], s).store);
      AttemptAbsorbed(server, op, attempts[0], cs, s);
    }
  }

  // The replies of a resent put.

  lemma {:induction false} OnlyFirst(cs: seq<Command>, k: string) returns (i: nat)
    requires Only(cs, k) != []
    ensures i < |cs| && Key(cs[i]) == k && Only(cs[..i], k) == []
  {
    var before := cs[..|cs| - 1];
    if Only(before, k) == [] {
      i := |before|;
    } else {
      i := OnlyFirst(before, k);
      assert before[..i] == cs[..i];
    }
  }

  lemma {:induction false} OnlyMember(cs: seq<Command>, i: nat)
    requires i < |cs|
    ensures Only(cs, Key(cs[i])) != []
  {
    if i == |cs| - 1 {
    } else {
      OnlyMember(cs[..|cs| - 1], i);
    }
  }

  /** Some attempt applied a command on k. */
  predicate Touches(attempts: seq<seq<Command>>, k: string) {
    exists a :: 0 <= a < |attempts| && Only(attempts[a], k) != []
  }

  lemma TouchesNext(attempts: seq<seq<Command>>, k: string)
    requires attempts != []
    ensures Touches(attempts, k) <==> Only(attempts[0], k) != [] || Touches(attempts[1..], k)
  {
    if Touches(attempts[1..], k) {
      var a :| 0 <= a < |attempts[1..]| && Only(attempts[1..][a], k) != [];
      assert attempts[1..][a] == attempts[a + 1];
    }
    if Touches(attempts, k) && Only(attempts[0], k) == [] {
      var a :| 0 <= a < |attempts| && Only(attempts[a], k) != [];
      assert attempts[1..][a - 1] == attempts[a];
    }
  }

  lemma PutOnKey(server: Server, cs: seq<Command>, s: Store, k: string)
    requires Standard(server)
    ensures Lookup(Run(server, Put, cs, s).store, k)
         == if k in s || Only(cs, k) == [] then Lookup(s, k) else Some(Arg(Only(cs, k)[0]))
  {
    StoreByKey(server, Put, cs, s, k);
    FoldStandard(server, Put, Only(cs, k), Lookup(s, k));
  }

  /** A key is there after the attempts exactly if it was before or one of them put it. */
  lemma {:induction false} AttemptsOnKey(server: Server, attempts: seq<seq<Command>>, s: Store, k: string)
    requires Standard(server)
    ensures k in After(server, Put, attempts, s) <==> k in s || Touches(attempts, k)
  {
    if attempts == [] {
    } else {
      var t := Run(server, Put, attempts[0], s).store;
      PutOnKey(server, attempts[0], s, k);
      assert k in t <==> Lookup(t, k).Some?;
      AttemptsOnKey(server, attempts[1..], t, k);
      TouchesNext(attempts, k);
    }
  }

  lemma PutReply(server: Server, cs: seq<Command>, s: Store, j: nat)
    requires Standard(server) && PutReplies(server) && j < |cs|
    ensures Run(server, Put, cs, s).responses[j]
         == if Key(cs[j]) !in s && Only(cs[..j], Key(cs[j])) == [] then "!ok" else "!duplicate_key"
  {
    ResponseByKey(server, Put, cs, s, j);
    FoldStandard(server, Put, Only(cs[..j], Key(cs[j])), Lookup(s, Key(cs[j])));
  }

  /** A put of a resent batch is answered as a single attempt would be, except that it finds the key
      there if an attempt cut short put it. */
  lemma ResentReply(server: Server, attempts: seq<seq<Command>>, cs: seq<Command>, s: Store, j: nat)
    requires Standard(server) && PutReplies(server) && j < |cs|
    ensures Run(server, Put, cs, After(server, Put, attempts, s)).responses[j]
         == if Touches(attempts, Key(cs[j])) then "!duplicate_key" else Run(server, Put, cs, s).responses[j]
  {
    AttemptsOnKey(server, attempts, s, Key(cs[j]));
    PutReply(server, cs, s, j);
    PutReply(server, cs, After(server, Put, attempts, s), j);
  }

  /** So the replies agree exactly when the attempts cut short touched only keys that were there
      before. */
  lemma RedoReplies(server: Server, attempts: seq<seq<Command>>, cs: seq<Command>, s: Store)
    requires Standard(server) && PutReplies(server) && AllPrefixes(attempts, cs)
    ensures Run(server, Put, cs, After(server, Put, attempts, s)).responses == Run(server, Put, cs, s).responses
       <==> forall a, i :: 0 <= a < |attempts| && 0 <= i < |attempts[a]| ==> Key(attempts[a][i]) in s
  {
    var t := After(server, Put, attempts, s);
    if a, i :| 0 <= a < |attempts| && 0 <= i < |attempts[a]| && Key(attempts[a][i]) !in s {
      var k := Key(attempts[a][i]);
      OnlyMember(attempts[a], i);
      assert KeyPrefix(attempts[a], cs);
      var first := OnlyFirst(cs, k);
      ResentReply(server, attempts, cs, s, first);
      PutReply(server, cs, s, first);
      assert Run(server, Put, cs, t).responses[first] != Run(server, Put, cs, s).responses[first];
    } else {
      forall j | 0 <= j < |cs| ensures Run(server, Put, cs, t).responses[j] == Run(server, Put, cs, s).responses[j] {
        ResentReply(server, attempts, cs, s, j);
        PutReply(server, cs, s, j);
        TouchedPresent(attempts, s, Key(cs[j]));
      }
    }
  }

  lemma TouchedPresent(attempts: seq<seq<Command>>, s: Store, k: string)
    requires forall a, i :: 0 <= a < |attempts| && 0 <= i < |attempts[a]| ==> Key(attempts[a][i]) in s
    ensures Touches(attempts, k) ==> k in s
  {
    if Touches(attempts, k) {
      var a :| 0 <= a < |attempts| && Only(attempts[a], k) != [];
      var i := OnlyFirst(attempts[a], k);
    }
  }

  /** Attempts at a batch touch only its keys. */
  lemma PrefixKeys(attempts: seq<seq<Command>>, cs: seq<Command>, s: Store)
    requires AllPrefixes(attempts, cs) && forall i :: 0 <= i < |cs| ==> Key(cs[i]) in s
    ensures forall a, i :: 0 <= a < |attempts| && 0 <= i < |attempts[a]| ==> Key(attempts[a][i]) in s
  {
    forall a, i | 0 <= a < |attempts| && 0 <= i < |attempts[a]| ensures Key(attempts[a][i]) in s {
      OnlyMember(attempts[a], i);
      assert KeyPrefix(attempts[a], cs);
      var first := OnlyFirst(cs, Key(attempts[a][i]));
    }
  }
}
