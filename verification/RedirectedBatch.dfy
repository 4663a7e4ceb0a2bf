/** What a batch means when the blocks redirect some of its commands: those run after all others, at
    the chains they were redirected to. */
module RedirectedBatch {
  import opened Common
  import opened KvStore
  import opened Redo

  /** Of the first n commands, those at positions in (or not in) moved. */
  function Pick(cs: seq<Command>, moved: set<nat>, inside: bool, n: nat): seq<Command>
    requires n <= |cs|
    decreases n
  {
    if n == 0 then [] else
    var before := Pick(cs, moved, inside, n - 1);
    if (n - 1 in moved) == inside then before + [cs[n - 1]] else before
  }

  /** handle_redirects runs after the batch: the commands that were not redirected come first. */
  function Reordered(cs: seq<Command>, moved: set<nat>): seq<Command> {
    Pick(cs, moved, false, |cs|) + Pick(cs, moved, true, |cs|)
  }

  /** Where command i stands among them. */
  function Place(cs: seq<Command>, moved: set<nat>, i: nat): nat
    requires i < |cs|
  {
    if i in moved then |Pick(cs, moved, false, |cs|)| + |Pick(cs, moved, true, i)| else |Pick(cs, moved, false, i)|
  }

  /** Once a key has moved, the later commands on it are redirected too. */
  predicate MovedForGood(cs: seq<Command>, moved: set<nat>) {
    forall i, j :: 0 <= i < j < |cs| && i in moved && Key(cs[i]) == Key(cs[j]) ==> j in moved
  }

  lemma {:induction false} PickPrefix(cs: seq<Command>, moved: set<nat>, inside: bool, i: nat, n: nat)
    requires i <= n <= |cs|
    ensures Pick(cs, moved, inside, i) <= Pick(cs, moved, inside, n)
    ensures i < n && (i in moved) == inside ==>
              && |Pick(cs, moved, inside, i)| < |Pick(cs, moved, inside, n)|
              && Pick(cs, moved, inside, n)[|Pick(cs, moved, inside, i)|] == cs[i]
    decreases n
  {
    if i == n {
    } else {
      PickPrefix(cs, moved, inside, i, n - 1);
    }
  }

  /** The commands on k among the first n. */
  function Own(cs: seq<Command>, k: string, n: nat): seq<Command>
    requires n <= |cs|
    decreases n
  {
    if n == 0 then [] else
    if Key(cs[n - 1]) == k then Own(cs, k, n - 1) + [cs[n - 1]] else Own(cs, k, n - 1)
  }

  /** Those of them at positions in (or not in) moved. */
  function OnKey(cs: seq<Command>, moved: set<nat>, inside: bool, k: string, n: nat): seq<Command>
    requires n <= |cs|
    decreases n
  {
    if n == 0 then [] else
    var before := OnKey(cs, moved, inside, k, n - 1);
    if (n - 1 in moved) == inside && Key(cs[n - 1]) == k then before + [cs[n - 1]] else before
  }

  lemma {:induction false} OwnIsOnly(cs: seq<Command>, k: string, n: nat)
    requires n <= |cs|
    ensures Own(cs, k, n) == Only(cs[..n], k)
    decreases n
  {
    if n == 0 {
    } else {
      OwnIsOnly(cs, k, n - 1);
      assert cs[..n] == cs[..n - 1] + [cs[n - 1]];
      OnlySnoc(cs[..n - 1], cs[n - 1], k);
    }
  }

  lemma {:induction false} OnKeyIsOnly(cs: seq<Command>, moved: set<nat>, inside: bool, k: string, n: nat)
    requires n <= |cs|
    ensures OnKey(cs, moved, inside, k, n) == Only(Pick(cs, moved, inside, n), k)
    decreases n
  {
    if n == 0 {
    } else {
      OnKeyIsOnly(cs, moved, inside, k, n - 1);
      OnlySnoc(Pick(cs, moved, inside, n - 1), cs[n - 1], k);
    }
  }

  lemma {:induction false} OnlyConcat(a: seq<Command>, b: seq<Command>, k: string)
    ensures Only(a + b, k) == Only(a, k) + Only(b, k)
  {
    if b == [] {
      assert a + b == a;
    } else {
      OnlyConcat(a, b[..|b| - 1], k);
      assert (a + b)[..|a + b| - 1] == a + b[..|b| - 1];
    }
  }

  /** Before a command that is not redirected no command on its key is. */
  lemma {:induction false} NoneMovedBefore(cs: seq<Command>, moved: set<nat>, i: nat, n: nat)
    requires n <= i < |cs| && i !in moved && MovedForGood(cs, moved)
    ensures OnKey(cs, moved, true, Key(cs[i]), n) == []
    decreases n
  {
    if n == 0 {
    } else {
      NoneMovedBefore(cs, moved, i, n - 1);
    }
  }

  /** After a command that is redirected every command on its key is. */
  lemma {:induction false} NoneStaysAfter(cs: seq<Command>, moved: set<nat>, i: nat, n: nat)
    requires i < n <= |cs| && i in moved && MovedForGood(cs, moved)
    ensures OnKey(cs, moved, false, Key(cs[i]), n) == OnKey(cs, moved, false, Key(cs[i]), i)
    decreases n
  {
    if i == n - 1 {
    } else {
      NoneStaysAfter(cs, moved, i, n - 1);
    }
  }

  lemma Appended(a: seq<Command>, b: seq<Command>, c: Command)
    ensures a + (b + [c]) == (a + b) + [c]
    ensures b == [] ==> (a + [c]) + b == (a + b) + [c]
  {
  }

  lemma {:induction false} OnKeyInOrder(cs: seq<Command>, moved: set<nat>, k: string, n: nat)
    requires n <= |cs| && MovedForGood(cs, moved)
    ensures OnKey(cs, moved, false, k, n) + OnKey(cs, moved, true, k, n) == Own(cs, k, n)
    decreases n
  {
    if n == 0 {
    } else {
      OnKeyInOrder(cs, moved, k, n - 1);
      Appended(OnKey(cs, moved, false, k, n - 1), OnKey(cs, moved, true, k, n - 1), cs[n - 1]);
      if n - 1 !in moved && Key(cs[n - 1]) == k {
        NoneMovedBefore(cs, moved, n - 1, n - 1);
      }
    }
  }

  lemma Placed(cs: seq<Command>, moved: set<nat>, i: nat)
    requires i < |cs|
    ensures Place(cs, moved, i) < |Reordered(cs, moved)| && Reordered(cs, moved)[Place(cs, moved, i)] == cs[i]
    ensures Reordered(cs, moved)[..Place(cs, moved, i)]
         == if i in moved then Pick(cs, moved, false, |cs|) + Pick(cs, moved, true, i) else Pick(cs, moved, false, i)
  {
    PickPrefix(cs, moved, false, i, |cs|);
    PickPrefix(cs, moved, true, i, |cs|);
  }

  lemma BeforeOnKey(cs: seq<Command>, moved: set<nat>, i: nat)
    requires i < |cs| && MovedForGood(cs, moved)
    ensures Place(cs, moved, i) < |Reordered(cs, moved)|
    ensures Only(Reordered(cs, moved)[..Place(cs, moved, i)], Key(cs[i])) == Only(cs[..i], Key(cs[i]))
  {
    var k := Key(cs[i]);
    Placed(cs, moved, i);
    OwnIsOnly(cs, k, i);
    OnKeyInOrder(cs, moved, k, i);
    if i in moved {
      OnlyConcat(Pick(cs, moved, false, |cs|), Pick(cs, moved, true, i), k);
      OnKeyIsOnly(cs, moved, false, k, |cs|);
      OnKeyIsOnly(cs, moved, true, k, i);
      NoneStaysAfter(cs, moved, i, |cs|);
    } else {
      OnKeyIsOnly(cs, moved, false, k, i);
      NoneMovedBefore(cs, moved, i, i);
    }
  }

  lemma ReorderedOnKey(cs: seq<Command>, moved: set<nat>, k: string)
    requires MovedForGood(cs, moved)
    ensures Only(Reordered(cs, moved), k) == Only(cs, k)
  {
    OnKeyInOrder(cs, moved, k, |cs|);
    OnKeyIsOnly(cs, moved, false, k, |cs|);
    OnKeyIsOnly(cs, moved, true, k, |cs|);
    OnlyConcat(Pick(cs, moved, false, |cs|), Pick(cs, moved, true, |cs|), k);
    OwnIsOnly(cs, k, |cs|);
    assert cs[..|cs|] == cs;
  }

  lemma ReorderedStore(server: Server, op: KvOp, cs: seq<Command>, moved: set<nat>, s: Store)
    requires MovedForGood(cs, moved)
    ensures Run(server, op, Reordered(cs, moved), s).store == Run(server, op, cs, s).store
  {
    forall k ensures Only(Reordered(cs, moved), k) == Only(cs, k) {
      ReorderedOnKey(cs, moved, k);
    }
    SamePerKey(server, op, Reordered(cs, moved), cs, s);
  }

  /** Redirect refinement: redirected commands run last, and still every command gets the reply, and
      the store ends, as in the run of the batch in its own order. */
  lemma RedirectedRefines(server: Server, op: KvOp, cs: seq<Command>, moved: set<nat>, s: Store, i: nat)
    requires MovedForGood(cs, moved) && i < |cs|
    ensures Run(server, op, Reordered(cs, moved), s).store == Run(server, op, cs, s).store
    ensures Place(cs, moved, i) < |Reordered(cs, moved)|
    ensures Run(server, op, Reordered(cs, moved), s).responses[Place(cs, moved, i)] == Run(server, op, cs, s).responses[i]
  {
    ReorderedStore(server, op, cs, moved, s);
    Placed(cs, moved, i);
    BeforeOnKey(cs, moved, i);
    ResponseByKey(server, op, Reordered(cs, moved), s, Place(cs, moved, i));
    ResponseByKey(server, op, cs, s, i);
  }

  // Without that the order shows.

  /** A server that counts: a value grows by one with every command, and the reply is what it was. */
  function Counting(): Server {
    (op: KvOp, c: Command, v: Option<string>) =>
      Outcome(Some((if v.Some? then v.value else "") + "x"), if v.Some? then v.value else "")
  }

  function Xs(n: nat): (x: string)
    ensures |x| == n
  {
    if n == 0 then "" else Xs(n - 1) + "x"
  }

  lemma {:induction false} CountingFold(op: KvOp, cs: seq<Command>)
    ensures Fold(Counting(), op, cs, None) == if cs == [] then None else Some(Xs(|cs|))
  {
    if cs == [] {
    } else {
      CountingFold(op, cs[..|cs| - 1]);
    }
  }

  lemma CountingReply(op: KvOp, cs: seq<Command>, i: nat)
    requires i < |cs|
    ensures |Run(Counting(), op, cs, map[]).responses[i]| == |Only(cs[..i], Key(cs[i]))|
  {
    var earlier := Only(cs[..i], Key(cs[i]));
    ResponseByKey(Counting(), op, cs, map[], i);
    CountingFold(op, earlier);
    assert Lookup(map[], Key(cs[i])) == None;
    assert Counting()(op, cs[i], None).response == "";
    assert Counting()(op, cs[i], Some(Xs(|earlier|))).response == Xs(|earlier|);
  }

  lemma {:induction false} AtMostAllStay(cs: seq<Command>, moved: set<nat>, k: string, n: nat)
    requires n <= |cs|
    ensures |OnKey(cs, moved, false, k, n)| <= |Own(cs, k, n)|
    decreases n
  {
    if n == 0 {
    } else {
      AtMostAllStay(cs, moved, k, n - 1);
    }
  }

  lemma {:induction false} FewerStay(cs: seq<Command>, moved: set<nat>, i: nat, n: nat)
    requires i < n <= |cs| && i in moved
    ensures |OnKey(cs, moved, false, Key(cs[i]), n)| < |Own(cs, Key(cs[i]), n)|
    decreases n
  {
    if i == n - 1 {
      AtMostAllStay(cs, moved, Key(cs[i]), i);
    } else {
      FewerStay(cs, moved, i, n - 1);
    }
  }

  /** If a key moves and a later command on it is not redirected, some server answers that command as
      the batch in its own order would not. */
  lemma OrderShows(op: KvOp, cs: seq<Command>, moved: set<nat>) returns (j: nat)
    requires !MovedForGood(cs, moved)
    ensures j < |cs| && Place(cs, moved, j) < |Reordered(cs, moved)|
    ensures Run(Counting(), op, Reordered(cs, moved), map[]).responses[Place(cs, moved, j)]
         != Run(Counting(), op, cs, map[]).responses[j]
  {
    var i;
    i, j :| 0 <= i < j < |cs| && i in moved && Key(cs[i]) == Key(cs[j]) && j !in moved;
    Placed(cs, moved, j);
    FewerStay(cs, moved, i, j);
    OwnIsOnly(cs, Key(cs[j]), j);
    OnKeyIsOnly(cs, moved, false, Key(cs[j]), j);
    CountingReply(op, Reordered(cs, moved), Place(cs, moved, j));
    CountingReply(op, cs, j);
  }

  // For a put only the first command on a key matters.

  /** The first command on its key. */
  predicate First(cs: seq<Command>, i: nat) {
    i < |cs| && forall j :: 0 <= j < i ==> Key(cs[j]) != Key(cs[i])
  }

  /** If the first command on a new key is redirected, so are all others on it. */
  predicate FirstMovesAll(cs: seq<Command>, moved: set<nat>, s: Store) {
    forall i, j :: 0 <= i < j < |cs| && Key(cs[i]) == Key(cs[j]) && Key(cs[i]) !in s && First(cs, i) && i in moved ==> j in moved
  }

  lemma {:induction false} NoneOnKey(cs: seq<Command>, moved: set<nat>, inside: bool, k: string, n: nat)
    requires n <= |cs|
    ensures OnKey(cs, moved, inside, k, n) == [] <==> forall i :: 0 <= i < n && Key(cs[i]) == k ==> (i in moved) != inside
    decreases n
  {
    if n == 0 {
    } else {
      NoneOnKey(cs, moved, inside, k, n - 1);
    }
  }

  lemma {:induction false} NoneOwn(cs: seq<Command>, k: string, n: nat)
    requires n <= |cs|
    ensures Own(cs, k, n) == [] <==> forall i :: 0 <= i < n ==> Key(cs[i]) != k
    decreases n
  {
    if n == 0 {
    } else {
      NoneOwn(cs, k, n - 1);
    }
  }

  lemma {:induction false} FirstOf(cs: seq<Command>, j: nat) returns (f: nat)
    requires j < |cs|
    ensures f <= j && First(cs, f) && Key(cs[f]) == Key(cs[j])
  {
    if i :| 0 <= i < j && Key(cs[i]) == Key(cs[j]) {
      f := FirstOf(cs, i);
    } else {
      f := j;
    }
  }

  lemma OwnNone(cs: seq<Command>, j: nat)
    requires j < |cs|
    ensures Only(cs[..j], Key(cs[j])) == [] <==> First(cs, j)
  {
    OwnIsOnly(cs, Key(cs[j]), j);
    NoneOwn(cs, Key(cs[j]), j);
  }

  /** No command on its key runs before command j. */
  predicate RunsFirst(cs: seq<Command>, moved: set<nat>, j: nat)
    requires j < |cs|
  {
    if j in moved then
      && (forall i :: 0 <= i < |cs| && Key(cs[i]) == Key(cs[j]) ==> i in moved)
      && (forall i :: 0 <= i < j ==> Key(cs[i]) != Key(cs[j]))
    else
      forall i :: 0 <= i < j && Key(cs[i]) == Key(cs[j]) ==> i in moved
  }

  lemma NoneBefore(cs: seq<Command>, moved: set<nat>, j: nat)
    requires j < |cs|
    ensures Place(cs, moved, j) < |Reordered(cs, moved)|
    ensures Only(Reordered(cs, moved)[..Place(cs, moved, j)], Key(cs[j])) == [] <==> RunsFirst(cs, moved, j)
  {
    var k := Key(cs[j]);
    Placed(cs, moved, j);
    if j in moved {
      OnlyConcat(Pick(cs, moved, false, |cs|), Pick(cs, moved, true, j), k);
      OnKeyIsOnly(cs, moved, false, k, |cs|);
      OnKeyIsOnly(cs, moved, true, k, j);
      NoneOnKey(cs, moved, false, k, |cs|);
      NoneOnKey(cs, moved, true, k, j);
    } else {
      OnKeyIsOnly(cs, moved, false, k, j);
      NoneOnKey(cs, moved, false, k, j);
    }
  }

  lemma FirstRunsFirst(cs: seq<Command>, moved: set<nat>, s: Store, j: nat)
    requires j < |cs| && FirstMovesAll(cs, moved, s) && Key(cs[j]) !in s
    ensures RunsFirst(cs, moved, j) <==> First(cs, j)
  {
    var f := FirstOf(cs, j);
    assert f < j && f in moved ==> j in moved;
  }

  ghost predicate SameReply(server: Server, op: KvOp, cs: seq<Command>, moved: set<nat>, s: Store, j: nat)
    requires j < |cs|
  {
    && Place(cs, moved, j) < |Reordered(cs, moved)|
    && Run(server, op, Reordered(cs, moved), s).responses[Place(cs, moved, j)] == Run(server, op, cs, s).responses[j]
  }

  lemma PutSameReply(server: Server, cs: seq<Command>, moved: set<nat>, s: Store, j: nat)
    requires Standard(server) && PutReplies(server) && j < |cs|
    ensures SameReply(server, Put, cs, moved, s, j) <==> Key(cs[j]) in s || (RunsFirst(cs, moved, j) <==> First(cs, j))
  {
    Placed(cs, moved, j);
    NoneBefore(cs, moved, j);
    OwnNone(cs, j);
    PutReply(server, cs, s, j);
    PutReply(server, Reordered(cs, moved), s, Place(cs, moved, j));
  }

  /** A put is answered as in the batch's own order exactly when no first command on a new key is
      redirected past a later one. */
  lemma PutOrderExactly(server: Server, cs: seq<Command>, moved: set<nat>, s: Store)
    requires Standard(server) && PutReplies(server)
    ensures (forall j: nat :: j < |cs| ==> SameReply(server, Put, cs, moved, s, j)) <==> FirstMovesAll(cs, moved, s)
  {
    if FirstMovesAll(cs, moved, s) {
      forall j: nat | j < |cs| ensures SameReply(server, Put, cs, moved, s, j) {
        PutSameReply(server, cs, moved, s, j);
        if Key(cs[j]) !in s {
          FirstRunsFirst(cs, moved, s, j);
        }
      }
    } else {
      var i, j :| 0 <= i < j < |cs| && Key(cs[i]) == Key(cs[j]) && Key(cs[i]) !in s && First(cs, i) && i in moved && j !in moved;
      PutSameReply(server, cs, moved, s, i);
      assert !RunsFirst(cs, moved, i);
    }
  }
}
