/** How a batch is cut into one sublist per block, for any placement of keys on blocks, and why
    running the sublists apart changes nothing. */
module Scatter {
  import opened Common
  import opened KvStore

  /** Which block a key belongs to. */
  type Placement = string -> nat

  // Sublists.

  /** The commands of cs that go to block b. */
  function Sub(owner: Placement, cs: seq<Command>, b: nat): seq<Command>
  {
    if cs == [] then [] else
    var before := Sub(owner, cs[..|cs| - 1], b);
    if owner(Key(cs[|cs| - 1])) == b then before + [cs[|cs| - 1]] else before
  }

  /** Where in cs the commands of Sub(cs, b) stand. */
  function Positions(owner: Placement, cs: seq<Command>, b: nat): (ps: seq<nat>)
    ensures |ps| == |Sub(owner, cs, b)|
    ensures forall j :: 0 <= j < |ps| ==> ps[j] < |cs|
  {
    if cs == [] then [] else
    var before := Positions(owner, cs[..|cs| - 1], b);
    if owner(Key(cs[|cs| - 1])) == b then before + [|cs| - 1] else before
  }

  lemma SubSnoc(owner: Placement, cs: seq<Command>, c: Command, b: nat)
    ensures Sub(owner, cs + [c], b) == if owner(Key(c)) == b then Sub(owner, cs, b) + [c] else Sub(owner, cs, b)
    ensures Positions(owner, cs + [c], b)
         == if owner(Key(c)) == b then Positions(owner, cs, b) + [|cs|] else Positions(owner, cs, b)
  {
    assert (cs + [c])[..|cs|] == cs;
  }

  lemma {:induction false} PositionsPoint(owner: Placement, cs: seq<Command>, b: nat, j: nat)
    requires j < |Sub(owner, cs, b)|
    ensures cs[Positions(owner, cs, b)[j]] == Sub(owner, cs, b)[j]
    ensures owner(Key(Sub(owner, cs, b)[j])) == b
  {
    var before := cs[..|cs| - 1];
    if j < |Sub(owner, before, b)| {
      PositionsPoint(owner, before, b, j);
    }
  }

  /** Every command of the batch stands at some place of its owner's sublist. */
  lemma {:induction false} PositionOf(owner: Placement, cs: seq<Command>, i: nat) returns (j: nat)
    requires i < |cs|
    ensures j < |Sub(owner, cs, owner(Key(cs[i])))|
    ensures Positions(owner, cs, owner(Key(cs[i])))[j] == i
  {
    var before := cs[..|cs| - 1];
    if i == |before| {
      j := |Sub(owner, before, owner(Key(cs[i])))|;
    } else {
      j := PositionOf(owner, before, i);
    }
  }

  /** Positions of different blocks, or of different places in one sublist, never meet. */
  lemma {:induction false} PositionsDistinct(owner: Placement, cs: seq<Command>, b: nat, j: nat, c: nat, k: nat)
    requires j < |Sub(owner, cs, b)| && k < |Sub(owner, cs, c)|
    requires Positions(owner, cs, b)[j] == Positions(owner, cs, c)[k]
    ensures b == c && j == k
  {
    var before := cs[..|cs| - 1];
    if j < |Sub(owner, before, b)| && k < |Sub(owner, before, c)| {
      PositionsDistinct(owner, before, b, j, c, k);
    }
  }

  /** A sublist keeps, for each of its keys, all the commands on that key and their order. */
  lemma {:induction false} SubKeepsKey(owner: Placement, cs: seq<Command>, k: string)
    ensures Only(Sub(owner, cs, owner(k)), k) == Only(cs, k)
  {
    if cs == [] {
    } else {
      var before, c := cs[..|cs| - 1], cs[|cs| - 1];
      SubKeepsKey(owner, before, k);
      OnlySnoc(Sub(owner, before, owner(k)), c, k);
    }
  }

  lemma {:induction false} SubOmitsKey(owner: Placement, cs: seq<Command>, b: nat, k: string)
    requires owner(k) != b
    ensures Only(Sub(owner, cs, b), k) == []
  {
    if cs == [] {
    } else {
      var before, c := cs[..|cs| - 1], cs[|cs| - 1];
      SubOmitsKey(owner, before, b, k);
      OnlySnoc(Sub(owner, before, b), c, k);
    }
  }

  /** Before the j-th command of a sublist stand the same commands on its key as before that
      command in the whole batch. */
  lemma {:induction false} SubKeepsPrefix(owner: Placement, cs: seq<Command>, b: nat, j: nat, k: string)
    requires j < |Sub(owner, cs, b)| && owner(k) == b
    ensures Only(Sub(owner, cs, b)[..j], k) == Only(cs[..Positions(owner, cs, b)[j]], k)
  {
    var before, p := cs[..|cs| - 1], Positions(owner, cs, b)[j];
    if j < |Sub(owner, before, b)| {
      SubKeepsPrefix(owner, before, b, j, k);
      assert Sub(owner, cs, b)[..j] == Sub(owner, before, b)[..j];
      assert cs[..p] == before[..p];
    } else {
      assert Sub(owner, cs, b)[..j] == Sub(owner, before, b);
      assert cs[..p] == before;
      SubKeepsKey(owner, before, k);
    }
  }

  // Blocks.

  /** Every key has a block, and each block holds only its own keys. */
  ghost predicate Placed(owner: Placement, blocks: seq<Store>) {
    && (forall k :: owner(k) < |blocks|)
    && forall b, k :: 0 <= b < |blocks| && k in blocks[b] ==> owner(k) == b
  }

  /** The first m blocks together. */
  function Union(blocks: seq<Store>, m: nat): Store
    requires m <= |blocks|
    decreases m
  {
    if m == 0 then map[] else Union(blocks, m - 1) + blocks[m - 1]
  }

  lemma {:induction false} UnionLookup(owner: Placement, blocks: seq<Store>, m: nat, k: string)
    requires Placed(owner, blocks) && m <= |blocks|
    ensures Lookup(Union(blocks, m), k) == if owner(k) < m then Lookup(blocks[owner(k)], k) else None
    decreases m
  {
    if m == 0 {
    } else {
      UnionLookup(owner, blocks, m - 1, k);
    }
  }

  /** The blocks seen as one map. */
  function Flat(owner: Placement, blocks: seq<Store>): (s: Store)
    requires Placed(owner, blocks)
    ensures forall k {:trigger Lookup(s, k)} :: Lookup(s, k) == Lookup(blocks[owner(k)], k)
  {
    assert forall k :: Lookup(Union(blocks, |blocks|), k) == Lookup(blocks[owner(k)], k) by {
      forall k ensures Lookup(Union(blocks, |blocks|), k) == Lookup(blocks[owner(k)], k) {
        UnionLookup(owner, blocks, |blocks|, k);
      }
    }
    Union(blocks, |blocks|)
  }

  /** A flat map kept by n blocks. */
  function Spread(owner: Placement, n: nat, s: Store): (blocks: seq<Store>)
    ensures |blocks| == n
  {
    seq(n, b => map k | k in s && owner(k) == b :: s[k])
  }

  lemma SpreadFlat(owner: Placement, n: nat, s: Store)
    requires forall k :: owner(k) < n
    ensures Placed(owner, Spread(owner, n, s)) && Flat(owner, Spread(owner, n, s)) == s
  {
    StoresEqual(Flat(owner, Spread(owner, n, s)), s);
  }

  /** One block running its sublist on its own keys answers each command as the flat map would
      at the command's place in the batch, and leaves its keys as the flat map would. */
  lemma BlockRun(server: Server, op: KvOp, owner: Placement, cs: seq<Command>, blocks: seq<Store>, b: nat)
    requires Placed(owner, blocks) && b < |blocks|
    ensures var own := Run(server, op, Sub(owner, cs, b), blocks[b]);
            var whole := Run(server, op, cs, Flat(owner, blocks));
            && (forall j :: 0 <= j < |own.responses| ==>
                  own.responses[j] == whole.responses[Positions(owner, cs, b)[j]])
            && (forall k :: Lookup(own.store, k) == if owner(k) == b then Lookup(whole.store, k) else None)
  {
    var sub, ps, flat := Sub(owner, cs, b), Positions(owner, cs, b), Flat(owner, blocks);
    forall j | 0 <= j < |sub|
      ensures Run(server, op, sub, blocks[b]).responses[j] == Run(server, op, cs, flat).responses[ps[j]]
    {
      PositionsPoint(owner, cs, b, j);
      ResponseByKey(server, op, sub, blocks[b], j);
      ResponseByKey(server, op, cs, flat, ps[j]);
      SubKeepsPrefix(owner, cs, b, j, Key(sub[j]));
    }
    forall k ensures Lookup(Run(server, op, sub, blocks[b]).store, k)
                  == if owner(k) == b then Lookup(Run(server, op, cs, flat).store, k) else None
    {
      StoreByKey(server, op, sub, blocks[b], k);
      StoreByKey(server, op, cs, flat, k);
      if owner(k) == b {
        SubKeepsKey(owner, cs, k);
      } else {
        SubOmitsKey(owner, cs, b, k);
        assert k !in blocks[b];
      }
    }
  }

  /** The stores the blocks are left with. */
  ghost function RunBlocks(server: Server, op: KvOp, owner: Placement, cs: seq<Command>,
                           blocks: seq<Store>): (after: seq<Store>)
    ensures |after| == |blocks|
  {
    seq(|blocks|, b requires 0 <= b < |blocks| => Run(server, op, Sub(owner, cs, b), blocks[b]).store)
  }

  /** Batch refinement, the stores: the blocks together end as the flat map does. */
  lemma BlocksRefine(server: Server, op: KvOp, owner: Placement, cs: seq<Command>, blocks: seq<Store>)
    requires Placed(owner, blocks)
    ensures Placed(owner, RunBlocks(server, op, owner, cs, blocks))
    ensures Flat(owner, RunBlocks(server, op, owner, cs, blocks)) == Run(server, op, cs, Flat(owner, blocks)).store
  {
    var after := RunBlocks(server, op, owner, cs, blocks);
    forall b, k | 0 <= b < |after| && k in after[b] ensures owner(k) == b {
      BlockRun(server, op, owner, cs, blocks, b);
      assert Lookup(after[b], k) != None;
    }
    var whole := Run(server, op, cs, Flat(owner, blocks)).store;
    forall k ensures Lookup(Flat(owner, after), k) == Lookup(whole, k) {
      BlockRun(server, op, owner, cs, blocks, owner(k));
    }
    StoresEqual(Flat(owner, after), whole);
  }

  // Servers run concurrently: any interleaving of the sublists.

  /** How often b occurs among the first steps of a schedule. */
  function Count(schedule: seq<nat>, b: nat): (n: nat)
    ensures n <= |schedule|
  {
    if schedule == [] then 0
    else Count(schedule[..|schedule| - 1], b) + if schedule[|schedule| - 1] == b then 1 else 0
  }

  /** No block is scheduled more often than it has commands. */
  ghost predicate Fits(owner: Placement, cs: seq<Command>, schedule: seq<nat>)
  {
    forall b: nat :: Count(schedule, b) <= |Sub(owner, cs, b)|
  }

  /** The order in which a schedule executes the batch: at each step the named block takes the
      next command of its sublist. */
  ghost function Executed(owner: Placement, cs: seq<Command>, schedule: seq<nat>): (ds: seq<Command>)
    requires Fits(owner, cs, schedule)
    ensures |ds| == |schedule|
  {
    if schedule == [] then [] else
    var before, b := schedule[..|schedule| - 1], schedule[|schedule| - 1];
    assert Fits(owner, cs, before) by {
      forall c: nat ensures Count(before, c) <= |Sub(owner, cs, c)| {
        assert Count(before, c) <= Count(schedule, c);
      }
    }
    assert Count(schedule, b) == Count(before, b) + 1;
    Executed(owner, cs, before) + [Sub(owner, cs, b)[Count(before, b)]]
  }

  lemma {:induction false} CountMonotone(schedule: seq<nat>, n: nat, b: nat)
    requires n <= |schedule|
    ensures Count(schedule[..n], b) <= Count(schedule, b)
    ensures n < |schedule| && schedule[n] == b ==> Count(schedule[..n], b) < Count(schedule, b)
  {
    if n == |schedule| {
      assert schedule[..n] == schedule;
    } else {
      var before := schedule[..|schedule| - 1];
      assert before[..n] == schedule[..n];
      CountMonotone(before, n, b);
    }
  }

  lemma FitsPrefix(owner: Placement, cs: seq<Command>, schedule: seq<nat>, n: nat)
    requires Fits(owner, cs, schedule) && n <= |schedule|
    ensures Fits(owner, cs, schedule[..n])
  {
    forall b: nat ensures Count(schedule[..n], b) <= |Sub(owner, cs, b)| {
      CountMonotone(schedule, n, b);
    }
  }

  lemma {:induction false} ExecutedPrefix(owner: Placement, cs: seq<Command>, schedule: seq<nat>, n: nat)
    requires Fits(owner, cs, schedule) && n <= |schedule| && Fits(owner, cs, schedule[..n])
    ensures Executed(owner, cs, schedule[..n]) == Executed(owner, cs, schedule)[..n]
    ensures n < |schedule| ==> Count(schedule[..n], schedule[n]) < |Sub(owner, cs, schedule[n])|
    ensures n < |schedule| ==>
              Executed(owner, cs, schedule)[n] == Sub(owner, cs, schedule[n])[Count(schedule[..n], schedule[n])]
  {
    if n == |schedule| {
      assert schedule[..n] == schedule;
    } else {
      CountMonotone(schedule, n, schedule[n]);
      var before := schedule[..|schedule| - 1];
      FitsPrefix(owner, cs, schedule, |schedule| - 1);
      assert before[..n] == schedule[..n];
      ExecutedPrefix(owner, cs, before, n);
    }
  }

  /** Whatever the interleaving, the commands executed on a key are a prefix of its commands. */
  lemma {:induction false} ExecutedByKey(owner: Placement, cs: seq<Command>, schedule: seq<nat>, k: string)
    requires Fits(owner, cs, schedule)
    ensures Only(Executed(owner, cs, schedule), k)
         == Only(Sub(owner, cs, owner(k))[..Count(schedule, owner(k))], k)
  {
    if schedule == [] {
    } else {
      var before, b, o := schedule[..|schedule| - 1], schedule[|schedule| - 1], owner(k);
      ExecutedSnoc(owner, cs, schedule);
      ExecutedByKey(owner, cs, before, k);
      if b != o {
        PositionsPoint(owner, cs, b, Count(before, b));
      }
      var sub, t := Sub(owner, cs, o), Count(before, o);
      var next := if b == o then sub[..t + 1] else sub[..t];
      assert b == o ==> sub[..t + 1] == sub[..t] + [sub[t]];
      KeyNext(Executed(owner, cs, before), Sub(owner, cs, b)[Count(before, b)], sub[..t], next, k);
    }
  }

  /** One command more: the next of those on k, or one on another key. */
  lemma KeyNext(done: seq<Command>, c: Command, own: seq<Command>, next: seq<Command>, k: string)
    requires Only(done, k) == Only(own, k) && (next == own + [c] || (next == own && Key(c) != k))
    ensures Only(done + [c], k) == Only(next, k)
  {
    OnlySnoc(done, c, k);
    OnlySnoc(own, c, k);
  }

  lemma ExecutedSnoc(owner: Placement, cs: seq<Command>, schedule: seq<nat>)
    requires Fits(owner, cs, schedule) && schedule != []
    ensures var before, b := schedule[..|schedule| - 1], schedule[|schedule| - 1];
            && Fits(owner, cs, before) && Count(before, b) < |Sub(owner, cs, b)|
            && Executed(owner, cs, schedule) == Executed(owner, cs, before) + [Sub(owner, cs, b)[Count(before, b)]]
  {
    FitsPrefix(owner, cs, schedule, |schedule| - 1);
    ExecutedPrefix(owner, cs, schedule, |schedule| - 1);
  }

  /** Batch refinement under concurrency: in every interleaving that finishes all sublists, each
      command gets the reply it gets in the sequential run, and the final store is the same. */
  lemma AnyInterleaving(server: Server, op: KvOp, owner: Placement, cs: seq<Command>, schedule: seq<nat>, s: Store)
    requires forall b: nat :: Count(schedule, b) == |Sub(owner, cs, b)|
    ensures Fits(owner, cs, schedule)
    ensures Run(server, op, Executed(owner, cs, schedule), s).store == Run(server, op, cs, s).store
    ensures forall t :: 0 <= t < |schedule| ==>
              Count(schedule[..t], schedule[t]) < |Sub(owner, cs, schedule[t])|
              && Run(server, op, Executed(owner, cs, schedule), s).responses[t]
              == Run(server, op, cs, s).responses[Positions(owner, cs, schedule[t])[Count(schedule[..t], schedule[t])]]
  {
    var ds := Executed(owner, cs, schedule);
    forall k ensures Only(ds, k) == Only(cs, k) {
      var sub := Sub(owner, cs, owner(k));
      ExecutedByKey(owner, cs, schedule, k);
      assert sub[..|sub|] == sub;
      SubKeepsKey(owner, cs, k);
    }
    SamePerKey(server, op, ds, cs, s);
    forall t | 0 <= t < |schedule|
      ensures Count(schedule[..t], schedule[t]) < |Sub(owner, cs, schedule[t])|
      ensures Run(server, op, ds, s).responses[t]
           == Run(server, op, cs, s).responses[Positions(owner, cs, schedule[t])[Count(schedule[..t], schedule[t])]]
    {
      FitsPrefix(owner, cs, schedule, t);
      ExecutedPrefix(owner, cs, schedule, t);
      var b, j := schedule[t], Count(schedule[..t], schedule[t]);
      PositionsPoint(owner, cs, b, j);
      ResponseByKey(server, op, ds, s, t);
      ResponseByKey(server, op, cs, s, Positions(owner, cs, b)[j]);
      ExecutedByKey(owner, cs, schedule[..t], Key(ds[t]));
      SubKeepsPrefix(owner, cs, b, j, Key(ds[t]));
    }
  }
}
