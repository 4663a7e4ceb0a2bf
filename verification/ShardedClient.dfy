/** The sharded client: a batch is scattered over the blocks, executed there, gathered back, and
    resent whole when a block reports that it moved. */
module ShardedClient {
  import opened Common
  import opened KvStore
  import opened Scatter
  import opened Attempts
  import opened RedoLoop
  import opened Redirects
  import opened Redo
  import opened Text
  import Gf2
  import HashSlot

  // Slots.

  /** std::upper_bound: the first position whose entry exceeds h. */
  function UpperBound(slots: seq<int>, h: int): (i: nat)
    ensures i <= |slots|
  {
    if slots == [] || h < slots[0] then 0 else 1 + UpperBound(slots[1..], h)
  }

  lemma {:induction false} UpperBoundAt(slots: seq<int>, h: int, j: nat)
    requires j < |slots|
    ensures j < UpperBound(slots, h) ==> slots[j] <= h
    ensures j == UpperBound(slots, h) ==> h < slots[j]
  {
    if h < slots[0] || j == 0 {
    } else {
      UpperBoundAt(slots[1..], h, j - 1);
    }
  }

  function BlockOfSlot(slots: seq<int>, h: nat): (b: nat)
    requires SlotMap(slots)
    ensures b < |slots|
  {
    UpperBound(slots, h) - 1
  }

  /** Every slot has exactly one owner, and it is the block the client picks. */
  lemma OwnerUnique(slots: seq<int>, h: nat, b: nat)
    requires SlotMap(slots) && b < |slots|
    ensures b == BlockOfSlot(slots, h) <==> slots[b] <= h && (b + 1 < |slots| ==> h < slots[b + 1])
  {
    var i := UpperBound(slots, h);
    UpperBoundAt(slots, h, b);
    if b + 1 < |slots| {
      UpperBoundAt(slots, h, b + 1);
    }
    if i < b + 1 && i < |slots| {
      UpperBoundAt(slots, h, i);
      assert slots[i] <= slots[b];
    }
  }

  lemma TwoBlocks(start: nat, h: nat)
    requires start > 0
    ensures SlotMap([0]) && BlockOfSlot([0], h) == 0
    ensures SlotMap([0, start]) && BlockOfSlot([0, start], h) == if h < start then 0 else 1
  {
    OwnerUnique([0], h, 0);
    OwnerUnique([0, start], h, 0);
    OwnerUnique([0, start], h, 1);
  }

  type Hash = string -> nat

  /** hash_slot::get. */
  function SlotHash(): Hash {
    (key: string) => HashSlot.Get(key)
  }

  /** block_id, as a placement of keys, for any hash. */
  function Owner(hash: Hash, slots: seq<int>): (owner: Placement)
    requires SlotMap(slots)
    ensures forall k :: owner(k) < |slots|
  {
    var place: Placement := (key: string) => BlockOfSlot(slots, hash(key));
    assert forall k :: place(k) == BlockOfSlot(slots, hash(k)) < |slots|;
    place
  }

  /** Slot h lies in the range of block b. */
  predicate InRange(slots: seq<int>, h: nat, b: nat)
    requires b < |slots|
  {
    slots[b] <= h && (b + 1 < |slots| ==> h < slots[b + 1])
  }

  /** The client picks for a key the block in whose range its slot lies. */
  lemma OwnerInRange(hash: Hash, slots: seq<int>, k: string, b: nat)
    requires SlotMap(slots) && b < |slots|
    ensures Owner(hash, slots)(k) == b <==> slots[b] <= hash(k) && (b + 1 < |slots| ==> hash(k) < slots[b + 1])
  {
    OwnerUnique(slots, hash(k), b);
  }

  /** A client's own hash: the block of a key is the one whose range holds the remainder of its bytes. */
  lemma ClientBlock(slots: seq<int>, key: string, m: seq<bv8>, r: bv16, b: nat)
    requires SlotMap(slots) && b < |slots| && HashSlot.InMemory(key, m)
    requires Gf2.Congruent(Gf2.Shift(HashSlot.MessagePoly(m), 16), HashSlot.WordPoly(r))
    ensures Owner(SlotHash(), slots)(key) == b <==> InRange(slots, r as int, b)
  {
    HashSlot.SlotIsRemainder(key, m, r);
    OwnerInRange(SlotHash(), slots, key, b);
  }

  /** The commands on keys whose slots lie in the range of block b, in their order. */
  function Ranged(hash: Hash, slots: seq<int>, cs: seq<Command>, b: nat): seq<Command>
    requires b < |slots|
  {
    if cs == [] then [] else
    var before, c := Ranged(hash, slots, cs[..|cs| - 1], b), cs[|cs| - 1];
    if InRange(slots, hash(Key(c)), b) then before + [c] else before
  }

  lemma {:induction false} SubIsRanged(hash: Hash, slots: seq<int>, cs: seq<Command>, b: nat)
    requires SlotMap(slots) && b < |slots|
    ensures Sub(Owner(hash, slots), cs, b) == Ranged(hash, slots, cs, b)
  {
    if cs == [] {
    } else {
      SubIsRanged(hash, slots, cs[..|cs| - 1], b);
      OwnerInRange(hash, slots, Key(cs[|cs| - 1]), b);
    }
  }

  /** Each block has run exactly the commands in its range, in their order, and nothing else. */
  ghost predicate RanInRange(server: Server, op: KvOp, hash: Hash, slots: seq<int>, cs: seq<Command>,
                             before: seq<Store>, after: seq<Store>) {
    |before| == |after| == |slots|
    && forall b :: 0 <= b < |after| ==> after[b] == Run(server, op, Ranged(hash, slots, cs, b), before[b]).store
  }

  lemma BlocksRanInRange(server: Server, op: KvOp, hash: Hash, slots: seq<int>, cs: seq<Command>, blocks: seq<Store>)
    requires SlotMap(slots) && |blocks| == |slots|
    ensures RanInRange(server, op, hash, slots, cs, blocks, RunBlocks(server, op, Owner(hash, slots), cs, blocks))
  {
    forall b | 0 <= b < |blocks|
      ensures Sub(Owner(hash, slots), cs, b) == Ranged(hash, slots, cs, b)
    {
      SubIsRanged(hash, slots, cs, b);
    }
  }

  // Argument vectors.

  lemma {:induction false} GroupLength(args: seq<string>, n: nat, m: nat)
    requires n > 0 && |args| == m * n
    ensures |Group(args, n)| == m
  {
    if m == 0 {
    } else {
      assert m * n == (m - 1) * n + n;
      GroupLength(args[..|args| - n], n, m - 1);
    }
  }

  lemma WholeCommands(size: nat, n: nat, i: nat)
    requires n > 0 && size % n == 0 && i <= size / n
    ensures i * n <= size && (size / n) * n == size
    ensures i < size / n ==> i * n + n == (i + 1) * n <= size
  {
    assert size == n * (size / n) + size % n;
    assert i * n <= (size / n) * n;
    if i < size / n {
      assert (i + 1) * n <= (size / n) * n;
    }
  }

  /** blockArgs and positions are the batch cs, cut up by block. */
  ghost predicate Scattered(owner: Placement, cs: seq<Command>, n: nat, blockArgs: seq<seq<string>>,
                            positions: seq<seq<nat>>) {
    |blockArgs| == |positions|
    && forall b :: 0 <= b < |blockArgs| ==>
         && Group(blockArgs[b], n) == Sub(owner, cs, b)
         && positions[b] == Positions(owner, cs, b)
         && (blockArgs[b] == [] <==> positions[b] == [])
  }

  lemma ScatterStep(owner: Placement, cs: seq<Command>, c: Command, blockArgs: seq<seq<string>>,
                    positions: seq<seq<nat>>)
    requires Scattered(owner, cs, |c|, blockArgs, positions) && c != [] && owner(Key(c)) < |blockArgs|
    ensures var id := owner(Key(c));
            Scattered(owner, cs + [c], |c|, blockArgs[id := blockArgs[id] + c], positions[id := positions[id] + [|cs|]])
  {
    var id := owner(Key(c));
    GroupAppend(blockArgs[id], c);
    forall b | 0 <= b < |blockArgs|
      ensures Sub(owner, cs + [c], b) == if b == id then Sub(owner, cs, b) + [c] else Sub(owner, cs, b)
      ensures Positions(owner, cs + [c], b) == if b == id then Positions(owner, cs, b) + [|cs|] else Positions(owner, cs, b)
    {
      SubSnoc(owner, cs, c, b);
    }
  }

  lemma ScatterNext(owner: Placement, head: seq<string>, c: Command, all: seq<string>, blockArgs: seq<seq<string>>,
                    positions: seq<seq<nat>>)
    requires c != [] && all == head + c && owner(Key(c)) < |blockArgs|
    requires Scattered(owner, Group(head, |c|), |c|, blockArgs, positions)
    ensures |Group(all, |c|)| == |Group(head, |c|)| + 1
    ensures var id := owner(Key(c));
            Scattered(owner, Group(all, |c|), |c|,
                      blockArgs[id := blockArgs[id] + c], positions[id := positions[id] + [|Group(head, |c|)|]])
  {
    GroupAppend(head, c);
    ScatterStep(owner, Group(head, |c|), c, blockArgs, positions);
  }

  /** Replies put back by position are the replies of the sequential run. */
  lemma GatheredWhole(server: Server, op: KvOp, owner: Placement, cs: seq<Command>, blocks: seq<Store>,
                      results: seq<string>)
    requires Placed(owner, blocks) && |results| == |cs|
    requires forall b, j :: 0 <= b < |blocks| && 0 <= j < |Positions(owner, cs, b)| ==>
               results[Positions(owner, cs, b)[j]] == Run(server, op, Sub(owner, cs, b), blocks[b]).responses[j]
    ensures results == Run(server, op, cs, Flat(owner, blocks)).responses
  {
    forall i | 0 <= i < |cs| ensures results[i] == Run(server, op, cs, Flat(owner, blocks)).responses[i] {
      var b := owner(Key(cs[i]));
      var j := PositionOf(owner, cs, i);
      BlockRun(server, op, owner, cs, blocks, b);
      assert results[Positions(owner, cs, b)[j]] == Run(server, op, Sub(owner, cs, b), blocks[b]).responses[j];
    }
  }

  /** No position is listed twice. */
  ghost predicate Disjoint(positions: seq<seq<nat>>) {
    forall b, c :: 0 <= b < |positions| && 0 <= c < |positions| ==>
      forall j, k :: 0 <= j < |positions[b]| && 0 <= k < |positions[c]| && positions[b][j] == positions[c][k] ==>
        b == c && j == k
  }

  /** The inner loop of the scatter: n arguments from start on join vector id. */
  method PushArgs(blockArgs: seq<seq<string>>, id: nat, args: seq<string>, start: nat,
                  n: nat) returns (r: seq<seq<string>>)
    requires id < |blockArgs| && start + n <= |args|
    ensures r == blockArgs[id := blockArgs[id] + args[start..start + n]]
  {
    r := blockArgs;
    assert blockArgs[id] + args[start..start] == blockArgs[id];
    for j := 0 to n
      invariant r == blockArgs[id := blockArgs[id] + args[start..start + j]]
    {
      assert args[start..start + j + 1] == args[start..start + j] + [args[start + j]];
      assert blockArgs[id] + args[start..start + j] + [args[start + j]] == blockArgs[id] + args[start..start + j + 1];
      r := r[id := r[id] + [args[start + j]]];
    }
  }

  /** The outer loop: the arguments of operation i, from start on, join the vector of its block. */
  method ScatterOne(owner: Placement, args: seq<string>, n: nat, i: nat, start: nat, before: seq<seq<string>>,
                    noted: seq<seq<nat>>) returns (blockArgs: seq<seq<string>>, positions: seq<seq<nat>>)
    requires n > 0 && start + n <= |args| && |Group(args[..start], n)| == i && forall k :: owner(k) < |before|
    requires Scattered(owner, Group(args[..start], n), n, before, noted)
    ensures |blockArgs| == |before| && |Group(args[..start + n], n)| == i + 1
    ensures Scattered(owner, Group(args[..start + n], n), n, blockArgs, positions)
  {
    ghost var c := args[start..start + n];
    assert args[..start + n] == args[..start] + c && c[0] == args[start];
    ScatterNext(owner, args[..start], c, args[..start + n], before, noted);
    var id := owner(args[start]);
    blockArgs := PushArgs(before, id, args, start, n);
    positions := noted[id := noted[id] + [i]];
  }

  /** batch_command, first loop: cut the arguments into one vector per block and note positions. */
  method ScatterArgs(owner: Placement, args: seq<string>, n: nat, numBlocks: nat)
    returns (blockArgs: seq<seq<string>>, positions: seq<seq<nat>>)
    requires n > 0 && |args| % n == 0 && forall k :: owner(k) < numBlocks
    ensures |blockArgs| == numBlocks && Scattered(owner, Group(args, n), n, blockArgs, positions)
  {
    blockArgs := seq(numBlocks, _ => []);
    positions := seq(numBlocks, _ => []);
    var numOps := |args| / n;
    WholeCommands(|args|, n, 0);
    assert args[..0] == [];
    for i := 0 to numOps
      invariant |blockArgs| == numBlocks && 0 <= i * n <= |args| && |Group(args[..i * n], n)| == i
      invariant Scattered(owner, Group(args[..i * n], n), n, blockArgs, positions)
    {
      WholeCommands(|args|, n, i);
      blockArgs, positions := ScatterOne(owner, args, n, i, i * n, blockArgs, positions);
    }
    WholeCommands(|args|, n, numOps);
    assert args[..numOps * n] == args;
  }

  // Signs.

  /** The signs of the commands that go to block b. */
  function SubAway(owner: Placement, cs: seq<Command>, away: seq<Option<string>>, b: nat): (r: seq<Option<string>>)
    requires |away| == |cs|
    ensures |r| == |Sub(owner, cs, b)|
  {
    var ps := Positions(owner, cs, b);
    seq(|ps|, j requires 0 <= j < |ps| => away[ps[j]])
  }

  function SubAways(owner: Placement, cs: seq<Command>, away: seq<Option<string>>, count: nat): (r: seq<seq<Option<string>>>)
    requires |away| == |cs|
    ensures |r| == count && forall b :: 0 <= b < count ==> r[b] == SubAway(owner, cs, away, b)
  {
    seq(count, b requires 0 <= b < count => SubAway(owner, cs, away, b))
  }

  lemma ScatteredTags(owner: Placement, args: seq<string>, n: nat, away: seq<Option<string>>,
                      blockArgs: seq<seq<string>>, positions: seq<seq<nat>>)
    requires n > 0 && |away| == |Group(args, n)| && Scattered(owner, Group(args, n), n, blockArgs, positions)
    ensures forall b :: 0 <= b < |blockArgs| ==>
              && |SubAway(owner, Group(args, n), away, b)| == |Group(blockArgs[b], n)|
              && Tagged(Group(blockArgs[b], n), SubAway(owner, Group(args, n), away, b)) == Sub(owner, Tagged(Group(args, n), away), b)
              && positions[b] == Positions(owner, Tagged(Group(args, n), away), b)
              && (blockArgs[b] == [] <==> positions[b] == [])
  {
    GroupSized(args, n);
    forall b | 0 <= b < |blockArgs|
      ensures Sub(owner, Tagged(Group(args, n), away), b) == Tagged(Sub(owner, Group(args, n), b), SubAway(owner, Group(args, n), away, b))
      ensures Positions(owner, Tagged(Group(args, n), away), b) == Positions(owner, Group(args, n), b)
    {
      TaggedSub(owner, Group(args, n), away, n, b);
    }
  }

  lemma SubAwaySnoc(owner: Placement, cs: seq<Command>, c: Command, away: seq<Option<string>>, x: Option<string>, b: nat)
    requires |away| == |cs|
    ensures SubAway(owner, cs + [c], away + [x], b)
         == if owner(Key(c)) == b then SubAway(owner, cs, away, b) + [x] else SubAway(owner, cs, away, b)
  {
    SubSnoc(owner, cs, c, b);
  }

  lemma TaggedSnoc(cs: seq<Command>, c: Command, away: seq<Option<string>>, x: Option<string>)
    requires |away| == |cs|
    ensures Tagged(cs + [c], away + [x]) == Tagged(cs, away) + [Tag(c, x)]
  {
  }

  /** Cutting up a batch and tagging its commands commute. */
  lemma {:induction false} TaggedSub(owner: Placement, cs: seq<Command>, away: seq<Option<string>>, n: nat, b: nat)
    requires Sized(cs, n) && |away| == |cs|
    ensures Sub(owner, Tagged(cs, away), b) == Tagged(Sub(owner, cs, b), SubAway(owner, cs, away, b))
    ensures Positions(owner, Tagged(cs, away), b) == Positions(owner, cs, b)
  {
    if cs == [] {
    } else {
      var before, c, a, x := cs[..|cs| - 1], cs[|cs| - 1], away[..|cs| - 1], away[|cs| - 1];
      assert cs == before + [c] && away == a + [x];
      TaggedSub(owner, before, a, n, b);
      TaggedSubSnoc(owner, before, c, a, x, b);
    }
  }

  lemma TaggedSubSnoc(owner: Placement, cs: seq<Command>, c: Command, away: seq<Option<string>>, x: Option<string>, b: nat)
    requires |away| == |cs| && c != []
    requires Sub(owner, Tagged(cs, away), b) == Tagged(Sub(owner, cs, b), SubAway(owner, cs, away, b))
    requires Positions(owner, Tagged(cs, away), b) == Positions(owner, cs, b)
    ensures Sub(owner, Tagged(cs + [c], away + [x]), b) == Tagged(Sub(owner, cs + [c], b), SubAway(owner, cs + [c], away + [x], b))
    ensures Positions(owner, Tagged(cs + [c], away + [x]), b) == Positions(owner, cs + [c], b)
  {
    assert Key(Tag(c, x)) == Key(c);
    TaggedSnoc(cs, c, away, x);
    SubSnoc(owner, cs, c, b);
    SubSnoc(owner, Tagged(cs, away), Tag(c, x), b);
    SubAwaySnoc(owner, cs, c, away, x, b);
    TaggedSnoc(Sub(owner, cs, b), c, SubAway(owner, cs, away, b), x);
  }

  lemma {:induction false} GroupSized(args: seq<string>, n: nat)
    requires n > 0
    ensures Sized(Group(args, n), n)
  {
    if |args| < n {
    } else {
      GroupSized(args[..|args| - n], n);
    }
  }

  lemma {:induction false} GroupAt(args: seq<string>, n: nat, m: nat, i: nat)
    requires n > 0 && |args| == m * n && i < m
    ensures |Group(args, n)| == m && i * n + n <= |args| && Group(args, n)[i] == args[i * n..i * n + n]
    decreases m
  {
    assert m * n == (m - 1) * n + n;
    GroupLength(args, n, m);
    if i == m - 1 {
    } else {
      GroupLength(args[..|args| - n], n, m - 1);
      GroupAt(args[..|args| - n], n, m - 1, i);
    }
  }

  lemma ArgumentsPerOp(args: seq<string>, n: nat)
    requires n > 0 && args != [] && |args| % n == 0
    ensures |Group(args, n)| == |args| / n > 0 && |args| / |Group(args, n)| == n
  {
    WholeCommands(|args|, n, 0);
    GroupLength(args, n, |args| / n);
    WholeQuotient(|args|, n, |args| / n);
  }

  lemma WholeQuotient(size: nat, n: nat, m: nat)
    requires size == m * n && n > 0 && size > 0
    ensures m > 0 && size / m == n
  {
    var q := size / m;
    assert m * q <= size < m * q + m;
    Squeeze(m, n, q);
  }

  lemma Squeeze(m: nat, n: nat, q: nat)
    requires m * q <= m * n < m * q + m
    ensures q == n
  {
    if q < n {
      ProductGrows(m, q, n);
    } else if q > n {
      ProductGrows(m, n, q);
    }
  }

  lemma {:induction false} ProductGrows(m: nat, a: nat, b: nat)
    requires a < b
    ensures m * a + m <= m * b
    decreases b
  {
    assert m * b == m * (b - 1) + m;
    if a + 1 == b {
    } else {
      ProductGrows(m, a, b - 1);
    }
  }

  /** A batch that nobody redirects. */
  lemma CalmRun(server: Server, op: KvOp, n: nat, cs: seq<Command>, away: seq<Option<string>>, s: Store)
    requires Sized(cs, n) && |away| == |cs| && forall i :: 0 <= i < |away| ==> away[i] == None
    ensures Run(Tagging(server, n), op, Tagged(cs, away), s) == Run(server, op, cs, s)
  {
    assert Tagged(cs, away) == cs;
    UntaggedRun(server, op, n, cs, s);
  }

  lemma {:induction false} UntaggedRun(server: Server, op: KvOp, n: nat, cs: seq<Command>, s: Store)
    requires Sized(cs, n)
    ensures Run(Tagging(server, n), op, cs, s) == Run(server, op, cs, s)
  {
    if cs == [] {
    } else {
      UntaggedRun(server, op, n, cs[..|cs| - 1], s);
    }
  }

  lemma WayAt(route: Route, r: string, reply: string, hop: nat)
    requires hop < Length(route) && reply == Way(route, reply)[hop]
    requires hop == |route.hops| && route.applied ==> reply == r
    ensures reply == Way(route, r)[hop]
  {
  }

  lemma OneCommandSub(owner: Placement, c: Command, b: nat)
    ensures Sub(owner, [c], b) == if owner(Key(c)) == b then [c] else []
    ensures owner(Key(c)) == b ==> Positions(owner, [c], b) == [0]
  {
    SubSnoc(owner, [], c, b);
    assert [] + [c] == [c];
  }

  /** One command on its own block is one command on the flat map. */
  lemma OneCommandRun(server: Server, op: KvOp, owner: Placement, c: Command, blocks: seq<Store>)
    requires Placed(owner, blocks)
    ensures var b := owner(Key(c));
            var r := Run(server, op, [c], blocks[b]);
            && |r.responses| == 1 && Placed(owner, blocks[b := r.store])
            && Ran(Flat(owner, blocks[b := r.store]), [r.responses[0]]) == Run(server, op, [c], Flat(owner, blocks))
  {
    var b := owner(Key(c));
    var r := Run(server, op, [c], blocks[b]);
    forall j: nat ensures Sub(owner, [c], j) == if b == j then [c] else [] {
      OneCommandSub(owner, c, j);
    }
    OneCommandSub(owner, c, b);
    assert blocks[b := r.store] == RunBlocks(server, op, owner, [c], blocks);
    BlockRun(server, op, owner, [c], blocks, b);
    BlocksRefine(server, op, owner, [c], blocks);
  }

  /** A reply to be followed: a sign, whose chain may apply c, or one that only reads like a sign. */
  ghost predicate OnWay(server: Server, op: KvOp, c: Command, response: string, signed: bool, route: Route, r: string,
                        here: Store, there: Store) {
    && Exporting(response) && Leads(route)
    && match (signed, route.applied)
       case (true, true) => Ran(there, [r]) == Run(server, op, [c], here)
       case (true, false) => there == here
       case (false, _) => response == r
  }

  class KvClient {
    const hash: Hash
    const server: Server
    var slots: seq<int>
    /** What the block behind each entry of blocks_ stores, and the response it has sent. */
    var blocks: seq<Store>
    var replies: seq<Option<seq<string>>>

    ghost predicate Valid()
      reads this
    {
      && SlotMap(slots) && |blocks| == |replies| == |slots|
      && Placed(Owner(hash, slots), blocks)
      && forall b :: 0 <= b < |replies| ==> replies[b] == None
    }

    function Contents(): Store
      requires Valid()
      reads this
    {
      Flat(Owner(hash, slots), blocks)
    }

    constructor (server: Server, slots: seq<int>, blocks: seq<Store>)
      requires SlotMap(slots) && |blocks| == |slots| && Placed(Owner(SlotHash(), slots), blocks)
      ensures Valid() && hash == SlotHash() && this.server == server && this.slots == slots && this.blocks == blocks
    {
      this.hash := SlotHash();
      this.server := server;
      this.slots := slots;
      this.blocks := blocks;
      this.replies := seq(|slots|, _ => None);
    }

    /** refresh: the slot table and the connections are rebuilt from the directory's answer. Moving a
        block keeps every entry. */
    method Refresh(slots: seq<int>)
      requires Valid() && SlotMap(slots)
      modifies this
      ensures Valid() && this.slots == slots && Contents() == old(Contents())
    {
      SpreadFlat(Owner(hash, slots), |slots|, Contents());
      Rebuild(slots, Spread(Owner(hash, slots), |slots|, Contents()));
    }

    method Rebuild(slots: seq<int>, blocks: seq<Store>)
      requires SlotMap(slots) && |blocks| == |slots| && Placed(Owner(hash, slots), blocks)
      modifies this
      ensures Valid() && this.slots == slots && this.blocks == blocks
    {
      this.slots := [];
      this.blocks := [];
      this.replies := [];
      for i := 0 to |slots|
        invariant this.slots == slots[..i] && this.blocks == blocks[..i]
        invariant |this.replies| == i && forall b :: 0 <= b < i ==> this.replies[b] == None
      {
        this.slots := this.slots + [slots[i]];
        this.blocks := this.blocks + [blocks[i]];
        this.replies := this.replies + [None];
      }
      assert slots[..|slots|] == slots && blocks[..|blocks|] == blocks;
    }

    /** Block b gets the commands and its response waits on the connection. A command whose key has moved
        away from the block is answered with its sign and not applied. */
    method SendCommand(b: nat, op: KvOp, args: seq<string>, n: nat, away: seq<Option<string>>)
      requires b < |blocks| == |replies| && |away| == |Group(args, n)|
      modifies this`blocks, this`replies
      ensures var r := Run(Tagging(server, n), op, Tagged(Group(args, n), away), old(blocks[b]));
              blocks == old(blocks)[b := r.store] && replies == old(replies)[b := Some(r.responses)]
    {
      var r := Run(Tagging(server, n), op, Tagged(Group(args, n), away), blocks[b]);
      blocks := blocks[b := r.store];
      replies := replies[b := Some(r.responses)];
    }

    method RecvResponse(b: nat) returns (r: seq<string>)
      requires b < |replies| && replies[b].Some?
      modifies this`replies
      ensures r == old(replies[b]).value && replies == old(replies)[b := None]
    {
      r := replies[b].value;
      replies := replies[b := None];
    }

    /** batch_command, second loop: one request to every block that has work. */
    method SendAll(op: KvOp, blockArgs: seq<seq<string>>, n: nat, aways: seq<seq<Option<string>>>)
      requires Valid() && |blockArgs| == |aways| == |blocks| && n > 0
      requires forall b :: 0 <= b < |blocks| ==> |aways[b]| == |Group(blockArgs[b], n)|
      modifies this`blocks, this`replies
      ensures |blocks| == |replies| == old(|blocks|)
      ensures forall b :: 0 <= b < |blocks| ==>
                var r := Run(Tagging(server, n), op, Tagged(Group(blockArgs[b], n), aways[b]), old(blocks)[b]);
                && blocks[b] == r.store
                && replies[b] == if blockArgs[b] == [] then None else Some(r.responses)
    {
      for i := 0 to |blocks|
        invariant |blocks| == |replies| == old(|blocks|)
        invariant forall b :: 0 <= b < i ==>
                    var r := Run(Tagging(server, n), op, Tagged(Group(blockArgs[b], n), aways[b]), old(blocks)[b]);
                    && blocks[b] == r.store
                    && replies[b] == if blockArgs[b] == [] then None else Some(r.responses)
        invariant forall b :: i <= b < |blocks| ==> blocks[b] == old(blocks)[b] && replies[b] == None
      {
        if blockArgs[i] != [] {
          SendCommand(i, op, blockArgs[i], n, aways[i]);
        }
      }
    }

    /** batch_command, third loop: every response goes to the position its command came from. */
    method GatherAll(blockArgs: seq<seq<string>>, positions: seq<seq<nat>>, numOps: nat) returns (results: seq<string>)
      requires |blockArgs| == |positions| == |replies|
      requires forall b :: 0 <= b < |replies| ==> replies[b].Some? == (blockArgs[b] != [])
      requires forall b :: 0 <= b < |replies| && blockArgs[b] != [] ==> |replies[b].value| == |positions[b]|
      requires forall b, j :: 0 <= b < |positions| && 0 <= j < |positions[b]| ==> positions[b][j] < numOps
      requires Disjoint(positions)
      modifies this`replies
      ensures |replies| == old(|replies|) && forall b :: 0 <= b < |replies| ==> replies[b] == None
      ensures |results| == numOps
      ensures forall b, j :: 0 <= b < |positions| && blockArgs[b] != [] && 0 <= j < |positions[b]|
                ==> results[positions[b][j]] == old(replies)[b].value[j]
    {
      results := seq(numOps, _ => "");
      for i := 0 to |replies|
        invariant |replies| == old(|replies|) && |results| == numOps
        invariant forall b :: 0 <= b < i ==> replies[b] == None
        invariant forall b :: i <= b < |replies| ==> replies[b] == old(replies)[b]
        invariant forall b, j :: 0 <= b < i && blockArgs[b] != [] && 0 <= j < |positions[b]| ==>
                    results[positions[b][j]] == old(replies)[b].value[j]
      {
        if blockArgs[i] != [] {
          var res := RecvResponse(i);
          for j := 0 to |res|
            invariant |results| == numOps
            invariant forall b, k :: 0 <= b < i && blockArgs[b] != [] && 0 <= k < |positions[b]| ==>
                        results[positions[b][k]] == old(replies)[b].value[k]
            invariant forall k :: 0 <= k < j ==> results[positions[i][k]] == res[k]
          {
            results := results[positions[i][j] := res[j]];
          }
        }
      }
    }

    /** batch_command does to the blocks together, and answers, what the commands run one by one in
        their original order would do to one flat map; commands on keys that have moved away are
        answered with their signs. */
    method BatchCommand(op: KvOp, args: seq<string>, argsPerOp: nat, away: seq<Option<string>>)
      returns (result: Result<seq<string>>)
      requires Valid() && argsPerOp > 0 && (|args| % argsPerOp == 0 ==> |away| == |Group(args, argsPerOp)|)
      modifies this`blocks, this`replies
      ensures Valid()
      ensures |args| % argsPerOp != 0 ==> result.Err? && blocks == old(blocks)
      ensures |args| % argsPerOp == 0 ==>
                var cs := Group(args, argsPerOp);
                var r := Run(Tagging(server, argsPerOp), op, Tagged(cs, away), old(Contents()));
                result == Ok(r.responses) && Contents() == r.store
      ensures |args| % argsPerOp == 0 ==>
                RanInRange(Tagging(server, argsPerOp), op, hash, slots, Tagged(Group(args, argsPerOp), away), old(blocks), blocks)
      ensures |args| % argsPerOp == 0 && (forall i :: 0 <= i < |away| ==> away[i] == None) ==>
                var r := Run(server, op, Group(args, argsPerOp), old(Contents()));
                result == Ok(r.responses) && Contents() == r.store
    {
      if |args| % argsPerOp != 0 {
        return Err("Incorrect number of arguments");
      }
      var blockArgs, positions := ScatterArgs(Owner(hash, slots), args, argsPerOp, |blocks|);
      var results := Exchange(op, args, argsPerOp, away, blockArgs, positions);
      GroupSized(args, argsPerOp);
      if forall i :: 0 <= i < |away| ==> away[i] == None {
        CalmRun(server, op, argsPerOp, Group(args, argsPerOp), away, old(Contents()));
      }
      result := Ok(results);
    }

    /** The second and the third loop of batch_command. */
    method Exchange(op: KvOp, args: seq<string>, n: nat, away: seq<Option<string>>,
                    blockArgs: seq<seq<string>>, positions: seq<seq<nat>>) returns (results: seq<string>)
      requires Valid() && n > 0 && |args| % n == 0 && |away| == |Group(args, n)|
      requires |blockArgs| == |blocks| && Scattered(Owner(hash, slots), Group(args, n), n, blockArgs, positions)
      modifies this`blocks, this`replies
      ensures Valid()
      ensures var r := Run(Tagging(server, n), op, Tagged(Group(args, n), away), old(Contents()));
              results == r.responses && Contents() == r.store
      ensures RanInRange(Tagging(server, n), op, hash, slots, Tagged(Group(args, n), away), old(blocks), blocks)
    {
      ghost var owner, before, ts := Owner(hash, slots), blocks, Tagged(Group(args, n), away);
      var aways := SubAways(Owner(hash, slots), Group(args, n), away, |blocks|);
      ScatteredTags(owner, args, n, away, blockArgs, positions);
      SendAll(op, blockArgs, n, aways);
      assert blocks == RunBlocks(Tagging(server, n), op, owner, ts, before);
      BlocksRanInRange(Tagging(server, n), op, hash, slots, ts, before);
      WholeCommands(|args|, n, 0);
      GroupLength(args, n, |args| / n);
      results := Gather(op, n, blockArgs, positions, |args| / n, owner, ts, before);
      BlocksRefine(Tagging(server, n), op, owner, ts, before);
    }

    method Gather(op: KvOp, n: nat, blockArgs: seq<seq<string>>, positions: seq<seq<nat>>, numOps: nat,
                  ghost owner: Placement, ghost ts: seq<Command>, ghost before: seq<Store>) returns (results: seq<string>)
      requires |blockArgs| == |positions| == |replies| == |before| && numOps == |ts| && Placed(owner, before)
      requires forall b :: 0 <= b < |before| ==>
                 && positions[b] == Positions(owner, ts, b) && (blockArgs[b] == [] <==> positions[b] == [])
                 && replies[b] == if blockArgs[b] == [] then None
                                  else Some(Run(Tagging(server, n), op, Sub(owner, ts, b), before[b]).responses)
      modifies this`replies
      ensures |replies| == old(|replies|) && forall b :: 0 <= b < |replies| ==> replies[b] == None
      ensures results == Run(Tagging(server, n), op, ts, Flat(owner, before)).responses
    {
      forall b, j, c, k | (0 <= b < |positions| && 0 <= j < |positions[b]| && 0 <= c < |positions|
                          && 0 <= k < |positions[c]| && positions[b][j] == positions[c][k])
        ensures b == c && j == k
      {
        PositionsDistinct(owner, ts, b, j, c, k);
      }
      results := GatherAll(blockArgs, positions, numOps);
      GatheredWhole(Tagging(server, n), op, owner, ts, before, results);
    }

    /** A command applied at the place where its key is kept by now. */
    method Apply(op: KvOp, c: Command) returns (reply: string)
      requires Valid()
      modifies this`blocks
      ensures Valid()
      ensures Ran(Contents(), [reply]) == Run(server, op, [c], old(Contents()))
    {
      var b := Owner(hash, slots)(Key(c));
      var r := Run(server, op, [c], blocks[b]);
      OneCommandRun(server, op, Owner(hash, slots), c, blocks);
      blocks := blocks[b := r.store];
      reply := r.responses[0];
    }

    /** run_command_redirected on the next chain of a way: the chain that signs lead to applies the command
        unless it has moved; all others only reply. */
    method AskChain(op: KvOp, c: Command, route: Route, hop: nat) returns (reply: string)
      requires Valid() && hop < Length(route)
      modifies this`blocks
      ensures Valid()
      ensures hop == |route.hops| && route.applied ==> Ran(Contents(), [reply]) == Run(server, op, [c], old(Contents()))
      ensures !(hop == |route.hops| && route.applied) ==> Contents() == old(Contents())
      ensures reply == Way(route, reply)[hop]
    {
      if hop < |route.hops| {
        reply := route.hops[hop];
      } else if hop > |route.hops| {
        reply := (route.astray + [route.last])[hop - |route.hops| - 1];
      } else if route.applied {
        reply := Apply(op, c);
      } else {
        reply := MOVED;
      }
    }

    /** One pass of the do loop: the chain named in the reply is asked. */
    method FollowNext(op: KvOp, args: seq<string>, signed: bool, route: Route, ghost r: string, ghost response: string,
                      hop: nat, named: string, before: seq<Ask>, ghost here: Store, ghost there: Store)
      returns (final: string, asked: seq<Ask>)
      requires Valid() && From(route, signed) <= hop < Until(route, signed, r)
      requires OnWay(server, op, args + ["!redirected"], response, signed, route, r, here, there)
      requires Handled(named, before, Contents()) == Walked(args, response, signed, route, r, here, there, hop)
      modifies this`blocks
      ensures Valid() && (Exporting(final) <==> hop + 1 < Until(route, signed, r))
      ensures Handled(final, asked, Contents()) == Walked(args, response, signed, route, r, here, there, hop + 1)
    {
      var parts := SplitAll(named, '!');
      var chain := if |parts| < 2 then [] else parts[2..];
      WalkedBefore(args, response, signed, route, r, here, there, hop);
      WalkedNext(args, response, signed, route, r, here, there, hop);
      WalkedExports(args, response, signed, route, r, here, there, hop + 1);
      asked := before + [Ask(chain, args + ["!redirected"])];
      final := AskChain(op, args + ["!redirected"], route, hop);
      WayAt(route, r, final, hop);
    }

    /** The do loop for one command: ask each chain named in turn until a reply does not export. */
    method Follow(op: KvOp, response: string, args: seq<string>, signed: bool, route: Route, ghost r: string)
      returns (final: string, asked: seq<Ask>)
      requires Valid() && Exporting(response) && Leads(route) && (!signed ==> response == r)
      requires signed && route.applied ==> Run(server, op, [args + ["!redirected"]], Contents()).responses == [r]
      modifies this`blocks
      ensures Valid()
      ensures Handled(final, asked, Contents())
           == FollowReply(args, response, signed, route, r, old(Contents()), Run(server, op, [args + ["!redirected"]], old(Contents())).store)
    {
      ghost var applied := Run(server, op, [args + ["!redirected"]], Contents()).store;
      ghost var there := if route.applied then applied else Contents();
      WalkedEnds(args, response, signed, route, r, Contents(), applied);
      WalkedEnds(args, response, signed, route, r, Contents(), there);
      final, asked := FollowWay(op, response, args, signed, route, r, Contents(), there);
    }

    method FollowWay(op: KvOp, response: string, args: seq<string>, signed: bool, route: Route, ghost r: string,
                     ghost here: Store, ghost there: Store) returns (final: string, asked: seq<Ask>)
      requires Valid() && OnWay(server, op, args + ["!redirected"], response, signed, route, r, here, there)
      requires Walked(args, response, signed, route, r, here, there, From(route, signed)) == Handled(response, [], Contents())
      modifies this`blocks
      ensures Valid()
      ensures Handled(final, asked, Contents()) == Walked(args, response, signed, route, r, here, there, Until(route, signed, r))
    {
      final, asked := response, [];
      var hop := From(route, signed);
      while Exporting(final)
        invariant Valid() && From(route, signed) <= hop <= Until(route, signed, r)
        invariant Exporting(final) <==> hop < Until(route, signed, r)
        invariant Handled(final, asked, Contents()) == Walked(args, response, signed, route, r, here, there, hop)
        decreases Until(route, signed, r) - hop
      {
        final, asked := FollowNext(op, args, signed, route, r, response, hop, final, asked, here, there);
        hop := hop + 1;
      }
    }

    /** One command in handle_redirects: a reply that exports is followed. */
    method HandleOne(op: KvOp, args: seq<string>, response: string, signed: bool, route: Route, ghost r: string)
      returns (final: string, asked: seq<Ask>)
      requires Valid() && Leads(route) && (!signed ==> response == r)
      requires signed && route.applied ==> Run(server, op, [args + ["!redirected"]], Contents()).responses == [r]
      modifies this`blocks
      ensures Valid()
      ensures Handled(final, asked, Contents())
           == FollowReply(args, response, signed, route, r, old(Contents()), Run(server, op, [args + ["!redirected"]], old(Contents())).store)
    {
      final, asked := response, [];
      if Exporting(response) {
        final, asked := Follow(op, response, args, signed, route, r);
      }
    }

    /** The next command in handle_redirects. */
    method HandleNext(op: KvOp, cs: seq<Command>, e: Episode, ghost s: Store, i: nat, final: seq<string>, asked: seq<seq<Ask>>)
      returns (newFinal: seq<string>, redo: bool, newAsked: seq<seq<Ask>>)
      requires Valid() && IgnoresMark(server) && Legal(e, cs) && i < |cs| && cs[i] != []
      requires Following(final, asked, Contents()) == Followed(server, op, cs, e, s, i)
      modifies this`blocks
      ensures Valid() && redo == StopsHere(e, Run(server, op, cs, s).responses, i)
      ensures Following(newFinal, newAsked, Contents()) == FollowedPast(server, op, cs, e, s, i)
    {
      ghost var rs := Run(server, op, cs, s).responses;
      OneHandled(server, op, cs, e, s, i);
      PartlyNext(e, rs, i);
      var response, more := HandleOne(op, cs[i], final[i], e.away[i].Some?, e.routes[i], rs[i]);
      RequestsNext(cs, e, rs, i, more);
      newFinal, newAsked, redo := final[i := response], asked + [more], response == MOVED;
    }

    /** handle_redirects: every reply that exports is followed, in order; the first moved block stops it. */
    method HandleRedirects(op: KvOp, args: seq<string>, responses: seq<string>, e: Episode, ghost n: nat, ghost s: Store)
      returns (final: Option<seq<string>>, asked: seq<seq<Ask>>)
      requires Valid() && IgnoresMark(server) && n > 0 && args != [] && |args| % n == 0
      requires Legal(e, Group(args, n)) && AllSeen(e, Run(server, op, Group(args, n), s).responses, responses)
      requires Contents() == Run(server, op, Done(Group(args, n), e, 0), s).store
      modifies this`blocks
      ensures Valid() && Redirected(final, asked, Contents()) == Redirecting(server, op, Group(args, n), e, s)
    {
      ArgumentsPerOp(args, n);
      GroupSized(args, n);
      final, asked := FollowAll(op, Group(args, |args| / |responses|), responses, e, s);
    }

    method FollowAll(op: KvOp, cs: seq<Command>, responses: seq<string>, e: Episode, ghost s: Store)
      returns (final: Option<seq<string>>, asked: seq<seq<Ask>>)
      requires Valid() && IgnoresMark(server) && Legal(e, cs) && forall i :: 0 <= i < |cs| ==> cs[i] != []
      requires AllSeen(e, Run(server, op, cs, s).responses, responses)
      requires Contents() == Run(server, op, Done(cs, e, 0), s).store
      modifies this`blocks
      ensures Valid() && Redirected(final, asked, Contents()) == Redirecting(server, op, cs, e, s)
    {
      RedirectsStart(server, op, cs, e, s, responses);
      var replies, redo := responses, false;
      asked := [];
      for i := 0 to |responses|
        invariant Valid() && i <= Stop(e, Run(server, op, cs, s).responses, 0)
        invariant Following(replies, asked, Contents()) == Followed(server, op, cs, e, s, i)
      {
        replies, redo, asked := HandleNext(op, cs, e, s, i, replies, asked);
        RedirectsNext(server, op, cs, e, s, i);
        if redo {
          return None, asked;
        }
      }
      RedirectsEnd(server, op, cs, e, s);
      final := Some(replies);
    }

    /** One pass of the redo loop of put, get, update and remove. */
    method Attempt(op: KvOp, args: seq<string>, n: nat, e: Episode) returns (result: Option<seq<string>>)
      requires Valid() && IgnoresMark(server) && n > 0 && args != [] && |args| % n == 0 && Legal(e, Group(args, n))
      modifies this
      ensures Valid()
      ensures Pass(Contents(), result) == Tried(server, op, Group(args, n), e, old(Contents()))
      ensures slots == if result.None? then e.slots else old(slots)
    {
      ghost var cs, s := Group(args, n), Contents();
      GroupSized(args, n);
      BatchPhase(server, op, n, cs, e, s);
      TriedRedirects(server, op, cs, e, s);
      var responses := BatchCommand(op, args, n, e.away);
      var asked;
      result, asked := HandleRedirects(op, args, responses.value, e, n, s);
      if result.None? {
        Refresh(e.slots);
      }
    }

    /** put, get, update and remove of a batch: while a reply says that a block moved, rebuild the block
        table from the directory and send the whole batch again. Every attempt is the code's own; what
        it meets is given. None: after these attempts the call has not returned. */
    method BatchWithRedo(op: KvOp, args: seq<string>, argsPerOp: nat, es: seq<Episode>)
      returns (result: Option<Result<seq<string>>>)
      requires Valid() && IgnoresMark(server) && argsPerOp > 0 && args != []
      requires |args| % argsPerOp == 0 ==> AllLegal(es, Group(args, argsPerOp))
      modifies this
      ensures Valid()
      ensures |args| % argsPerOp != 0 ==> result.Some? && result.value.Err? && Contents() == old(Contents()) && slots == old(slots)
      ensures |args| % argsPerOp == 0 ==>
                var p := Redone(server, op, Group(args, argsPerOp), es, old(Contents()));
                Contents() == p.store && result == if p.replies.Some? then Some(Ok(p.replies.value)) else None
      ensures |args| % argsPerOp == 0 ==>
                slots == LastTable(server, op, Group(args, argsPerOp), es, old(Contents()), old(slots))
      ensures |args| % argsPerOp == 0 && Standard(server) && result.Some? ==>
                Contents() == Run(server, op, Group(args, argsPerOp), old(Contents())).store
    {
      if |args| % argsPerOp != 0 {
        return Some(Err("Incorrect number of arguments"));
      }
      var responses := Resend(op, args, argsPerOp, es);
      result := if responses.Some? then Some(Ok(responses.value)) else None;
      if Standard(server) && result.Some? {
        RedoneAsOnce(server, op, Group(args, argsPerOp), es, old(Contents()));
      }
    }

    /** The redo loop. */
    method Resend(op: KvOp, args: seq<string>, n: nat, es: seq<Episode>) returns (responses: Option<seq<string>>)
      requires Valid() && IgnoresMark(server) && n > 0 && args != [] && |args| % n == 0 && AllLegal(es, Group(args, n))
      modifies this
      ensures Valid()
      ensures Pass(Contents(), responses) == Redone(server, op, Group(args, n), es, old(Contents()))
      ensures slots == LastTable(server, op, Group(args, n), es, old(Contents()), old(slots))
    {
      ghost var cs := Group(args, n);
      ghost var goal, table := Redone(server, op, cs, es, Contents()), LastTable(server, op, cs, es, Contents(), slots);
      var rest, redo := es, true;
      responses := None;
      while redo && rest != []
        invariant Valid() && AllLegal(rest, cs) && (redo ==> responses.None?)
        invariant goal == if redo then Redone(server, op, cs, rest, Contents()) else Pass(Contents(), responses)
        invariant table == if redo then LastTable(server, op, cs, rest, Contents(), slots) else slots
        decreases redo, |rest|
      {
        RedoneNext(server, op, cs, rest, Contents());
        LastTableNext(server, op, cs, rest, Contents(), slots);
        responses := Attempt(op, args, n, rest[0]);
        redo := responses.None?;
        rest := rest[1..];
      }
    }
  }
}
