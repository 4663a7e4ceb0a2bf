/** One attempt at a batch while blocks move. A block whose key has moved away does not apply a command;
    it answers with a sign: the chain that took over, or that the block has moved. The chain applies it,
    exports again, or has moved itself, and then the whole attempt is given up. Signs are in band: a reply
    that only reads like one is taken for one. */
module Attempts {
  import opened Common
  import opened KvStore
  import opened RedirectedBatch
  import opened Redirects
  import opened Redo
  import opened Text

  /** The chains asked for one command. Those that signs lead to: the replies of the ones that export
      again, and whether the last applies the command or has moved. Then those that a reply leads to
      which only reads like a sign: the replies of the ones that export again, and of the last. */
  datatype Route = Route(hops: seq<string>, applied: bool, astray: seq<string>, last: string)

  /** What an attempt meets: for each command the sign its block answers with instead of applying it,
      the chains it may be sent to, and the slot table the directory holds afterwards. */
  datatype Episode = Episode(away: seq<Option<string>>, routes: seq<Route>, slots: seq<int>)

  /** Block i serves the slots from slots[i] up to the next entry; the first serves from 0. */
  predicate SlotMap(slots: seq<int>) {
    && slots != [] && slots[0] == 0
    && forall i, j :: 0 <= i < j < |slots| ==> slots[i] < slots[j]
  }

  const MOVED := "!block_moved"

  function Gone(away: seq<Option<string>>): set<nat> {
    set i: nat | i < |away| && away[i].Some?
  }

  predicate Sign(text: string) {
    text == MOVED || Exporting(text)
  }

  predicate Leads(route: Route) {
    && (forall h :: 0 <= h < |route.hops| ==> Exporting(route.hops[h]))
    && (forall h :: 0 <= h < |route.astray| ==> Exporting(route.astray[h]))
    && !Exporting(route.last)
  }

  /** A key that has moved stays moved for the rest of the attempt. */
  predicate Legal(e: Episode, cs: seq<Command>) {
    && |e.away| == |e.routes| == |cs| && MovedForGood(cs, Gone(e.away)) && SlotMap(e.slots)
    && (forall i :: 0 <= i < |cs| && e.away[i].Some? ==> Sign(e.away[i].value))
    && forall i :: 0 <= i < |cs| ==> Leads(e.routes[i])
  }

  /** Nothing moves. */
  predicate Unmoved(e: Episode) {
    forall i :: 0 <= i < |e.away| ==> e.away[i].None?
  }

  function Still(count: nat, slots: seq<int>): Episode {
    Episode(seq(count, _ => None), seq(count, _ => Route([], true, [], "")), slots)
  }

  lemma StillIsLegal(cs: seq<Command>, slots: seq<int>)
    requires SlotMap(slots)
    ensures Legal(Still(|cs|, slots), cs) && Unmoved(Still(|cs|, slots))
  {
  }

  /** Command i is applied, by its block or by a chain. */
  predicate Applies(e: Episode, i: nat)
    requires i < |e.away| == |e.routes|
  {
    e.away[i].None? || (e.away[i].value != MOVED && e.routes[i].applied)
  }

  /** What a reply comes to: one that reads like a sign is followed. */
  function Settled(r: string, route: Route): string {
    if Exporting(r) then route.last else r
  }

  /** The reply to command i in the end, where rs are the replies of those who apply the commands. */
  function Final(e: Episode, rs: seq<string>, i: nat): string
    requires i < |rs| == |e.away| == |e.routes|
  {
    if Applies(e, i) then Settled(rs[i], e.routes[i]) else MOVED
  }

  predicate AllApplied(e: Episode)
    requires |e.away| == |e.routes|
  {
    forall i: nat :: i < |e.away| ==> Applies(e, i)
  }

  function Finals(e: Episode, rs: seq<string>): seq<string>
    requires |rs| == |e.away| == |e.routes|
  {
    seq(|rs|, i requires 0 <= i < |rs| => Final(e, rs, i))
  }

  /** Command i makes handle_redirects give up. */
  predicate StopsHere(e: Episode, rs: seq<string>, i: nat)
    requires i < |rs| == |e.away| == |e.routes|
  {
    Final(e, rs, i) == MOVED
  }

  predicate Stops(e: Episode, rs: seq<string>)
    requires |rs| == |e.away| == |e.routes|
  {
    exists i: nat :: i < |rs| && StopsHere(e, rs, i)
  }

  /** The first command from i on that does. */
  function Stop(e: Episode, rs: seq<string>, i: nat): (d: nat)
    requires i <= |rs| == |e.away| == |e.routes|
    ensures i <= d <= |rs| && (d < |rs| ==> StopsHere(e, rs, d))
    ensures forall j :: i <= j < d ==> !StopsHere(e, rs, j)
    decreases |rs| - i
  {
    if i == |rs| || StopsHere(e, rs, i) then i else Stop(e, rs, i + 1)
  }

  lemma StopStep(e: Episode, rs: seq<string>, i: nat)
    requires |rs| == |e.away| == |e.routes| && i <= Stop(e, rs, 0)
    ensures i < |rs| ==> (StopsHere(e, rs, i) <==> Stop(e, rs, 0) == i)
    ensures Stops(e, rs) <==> Stop(e, rs, 0) < |rs|
  {
  }

  /** How many commands have been dealt with when the attempt is over: the one that stops it may have
      been applied all the same. */
  function Past(e: Episode, rs: seq<string>): (d: nat)
    requires |rs| == |e.away| == |e.routes|
    ensures d <= |rs|
  {
    var d := Stop(e, rs, 0);
    if d < |rs| && Applies(e, d) then d + 1 else d
  }

  /** After d commands have been followed: what the blocks applied, then what the chains applied. */
  function Done(cs: seq<Command>, e: Episode, d: nat): seq<Command>
    requires d <= |cs|
  {
    Pick(cs, Gone(e.away), false, |cs|) + Pick(cs, Gone(e.away), true, d)
  }

  /** Everything an attempt applies. */
  function Applied(cs: seq<Command>, e: Episode, rs: seq<string>): seq<Command>
    requires Legal(e, cs) && |rs| == |cs|
  {
    Done(cs, e, Past(e, rs))
  }

  lemma AppliedIsPrefix(cs: seq<Command>, e: Episode, rs: seq<string>)
    requires Legal(e, cs) && |rs| == |cs|
    ensures KeyPrefix(Applied(cs, e, rs), cs)
  {
    var moved, d := Gone(e.away), Past(e, rs);
    forall k ensures Only(Applied(cs, e, rs), k) <= Only(cs, k) {
      DoneOnKey(cs, moved, d, k);
    }
  }

  lemma DoneOnKey(cs: seq<Command>, moved: set<nat>, d: nat, k: string)
    requires MovedForGood(cs, moved) && d <= |cs|
    ensures Only(Pick(cs, moved, false, |cs|) + Pick(cs, moved, true, d), k) <= Only(cs, k)
  {
    var stay, go := Pick(cs, moved, false, |cs|), Pick(cs, moved, true, d);
    PickPrefix(cs, moved, true, d, |cs|);
    var later := Pick(cs, moved, true, |cs|)[|go|..];
    assert Reordered(cs, moved) == (stay + go) + later;
    OnlyConcat(stay + go, later, k);
    ReorderedOnKey(cs, moved, k);
  }

  /** An attempt that does not stop applies the whole batch. */
  lemma AppliedWhole(server: Server, op: KvOp, cs: seq<Command>, e: Episode, rs: seq<string>, s: Store)
    requires Legal(e, cs) && |rs| == |cs| && !Stops(e, rs)
    ensures Run(server, op, Applied(cs, e, rs), s).store == Run(server, op, cs, s).store
  {
    assert Applied(cs, e, rs) == Reordered(cs, Gone(e.away));
    ReorderedStore(server, op, cs, Gone(e.away), s);
  }

  // The replies.

  function Reply(server: Server, op: KvOp, c: Command, s: Store): string {
    server(op, c, Lookup(s, Key(c))).response
  }

  lemma ReplyAfter(server: Server, op: KvOp, before: seq<Command>, cs: seq<Command>, s: Store, i: nat)
    requires i < |cs| && Only(before, Key(cs[i])) == Only(cs[..i], Key(cs[i]))
    ensures Reply(server, op, cs[i], Run(server, op, before, s).store) == Run(server, op, cs, s).responses[i]
  {
    StoreByKey(server, op, before, s, Key(cs[i]));
    ResponseByKey(server, op, cs, s, i);
  }

  /** A command applied by its block is answered as in the run of the batch in its own order, */
  lemma StayingReply(server: Server, op: KvOp, cs: seq<Command>, e: Episode, s: Store, i: nat)
    requires Legal(e, cs) && i < |cs| && e.away[i].None?
    ensures Reply(server, op, cs[i], Run(server, op, Pick(cs, Gone(e.away), false, i), s).store)
         == Run(server, op, cs, s).responses[i]
  {
    Placed(cs, Gone(e.away), i);
    BeforeOnKey(cs, Gone(e.away), i);
    ReplyAfter(server, op, Pick(cs, Gone(e.away), false, i), cs, s, i);
  }

  /** and so is one applied by a chain. */
  lemma MovedReply(server: Server, op: KvOp, cs: seq<Command>, e: Episode, s: Store, i: nat)
    requires Legal(e, cs) && i < |cs| && e.away[i].Some?
    ensures Reply(server, op, cs[i], Run(server, op, Done(cs, e, i), s).store) == Run(server, op, cs, s).responses[i]
  {
    Placed(cs, Gone(e.away), i);
    BeforeOnKey(cs, Gone(e.away), i);
    ReplyAfter(server, op, Done(cs, e, i), cs, s, i);
  }

  // The batch phase as the run of one server: a command that is not applied carries its sign.

  function Tag(c: Command, away: Option<string>): Command {
    if away.Some? then c + [away.value] else c
  }

  /** The first m commands, tagged. */
  function TaggedTo(cs: seq<Command>, away: seq<Option<string>>, m: nat): (ts: seq<Command>)
    requires |away| == |cs| && m <= |cs|
    ensures |ts| == m && forall i :: 0 <= i < m ==> ts[i] == Tag(cs[i], away[i])
    decreases m
  {
    if m == 0 then [] else TaggedTo(cs, away, m - 1) + [Tag(cs[m - 1], away[m - 1])]
  }

  function Tagged(cs: seq<Command>, away: seq<Option<string>>): (ts: seq<Command>)
    requires |away| == |cs|
    ensures |ts| == |cs| && forall i :: 0 <= i < |ts| ==> ts[i] == Tag(cs[i], away[i])
  {
    TaggedTo(cs, away, |cs|)
  }

  /** The server that answers a command of more than n arguments with the last of them. */
  function Tagging(server: Server, n: nat): Server {
    (op: KvOp, c: Command, v: Option<string>) => if |c| > n then Outcome(v, c[n]) else server(op, c, v)
  }

  predicate Sized(cs: seq<Command>, n: nat) {
    n > 0 && forall i :: 0 <= i < |cs| ==> |cs[i]| == n
  }

  lemma TaggedStep(server: Server, op: KvOp, n: nat, c: Command, away: Option<string>, r: Ran, t: Ran)
    requires |c| == n > 0 && t.store == r.store
    ensures var x := Extend(Tagging(server, n), op, t, Tag(c, away));
            && x.store == (if away.Some? then r.store else Extend(server, op, r, c).store)
            && x.responses == t.responses + [if away.Some? then away.value else Reply(server, op, c, r.store)]
  {
    assert Key(Tag(c, away)) == Key(c);
    if away.Some? {
      StoresEqual(Assign(r.store, Key(c), Lookup(r.store, Key(c))), r.store);
    }
  }

  lemma PickedRun(server: Server, op: KvOp, cs: seq<Command>, moved: set<nat>, s: Store, m: nat)
    requires m < |cs|
    ensures var r := Run(server, op, Pick(cs, moved, false, m), s);
            Run(server, op, Pick(cs, moved, false, m + 1), s) == if m in moved then r else Extend(server, op, r, cs[m])
  {
    RunSnoc(server, op, Pick(cs, moved, false, m), cs[m], s);
  }

  lemma TaggedNext(server: Server, op: KvOp, n: nat, cs: seq<Command>, away: seq<Option<string>>, s: Store, m: nat)
    requires Sized(cs, n) && |away| == |cs| && m < |cs|
    requires Run(Tagging(server, n), op, TaggedTo(cs, away, m), s).store
          == Run(server, op, Pick(cs, Gone(away), false, m), s).store
    ensures var r := Run(server, op, Pick(cs, Gone(away), false, m), s);
            var t := Run(Tagging(server, n), op, TaggedTo(cs, away, m + 1), s);
            && t.store == Run(server, op, Pick(cs, Gone(away), false, m + 1), s).store
            && t.responses[m] == if away[m].Some? then away[m].value else Reply(server, op, cs[m], r.store)
  {
    PickedRun(server, op, cs, Gone(away), s, m);
    var ts := TaggedTo(cs, away, m);
    RunSnoc(Tagging(server, n), op, ts, Tag(cs[m], away[m]), s);
    TaggedStep(server, op, n, cs[m], away[m], Run(server, op, Pick(cs, Gone(away), false, m), s), Run(Tagging(server, n), op, ts, s));
  }

  /** What the blocks are left with after the first m commands, */
  lemma {:induction false} TaggedStore(server: Server, op: KvOp, n: nat, cs: seq<Command>, away: seq<Option<string>>,
                                       s: Store, m: nat)
    requires Sized(cs, n) && |away| == |cs| && m <= |cs|
    ensures Run(Tagging(server, n), op, TaggedTo(cs, away, m), s).store
         == Run(server, op, Pick(cs, Gone(away), false, m), s).store
    decreases m
  {
    if m == 0 {
      assert TaggedTo(cs, away, 0) == Pick(cs, Gone(away), false, 0);
    } else {
      var before := m - 1;
      TaggedStore(server, op, n, cs, away, s, before);
      TaggedNext(server, op, n, cs, away, s, before);
      assert before + 1 == m;
    }
  }

  lemma TaggedPrefix(cs: seq<Command>, away: seq<Option<string>>, m: nat)
    requires |away| == |cs| && m <= |cs|
    ensures Tagged(cs, away)[..m] == TaggedTo(cs, away, m)
  {
  }

  /** and how they answer. */
  lemma TaggedReply(server: Server, op: KvOp, n: nat, cs: seq<Command>, away: seq<Option<string>>, s: Store, i: nat)
    requires Sized(cs, n) && |away| == |cs| && i < |cs|
    ensures Run(Tagging(server, n), op, Tagged(cs, away), s).responses[i]
         == if away[i].Some? then away[i].value
            else Reply(server, op, cs[i], Run(server, op, Pick(cs, Gone(away), false, i), s).store)
  {
    TaggedStore(server, op, n, cs, away, s, i);
    TaggedNext(server, op, n, cs, away, s, i);
    TaggedPrefix(cs, away, i + 1);
    RunPrefix(Tagging(server, n), op, Tagged(cs, away), s, i + 1);
  }

  /** The reply to command i that batch_command returns. */
  function Seen(e: Episode, rs: seq<string>, i: nat): string
    requires i < |rs| == |e.away|
  {
    if e.away[i].Some? then e.away[i].value else rs[i]
  }

  predicate AllSeen(e: Episode, rs: seq<string>, responses: seq<string>) {
    |responses| == |rs| == |e.away| && forall i :: 0 <= i < |rs| ==> responses[i] == Seen(e, rs, i)
  }

  lemma BatchReply(server: Server, op: KvOp, n: nat, cs: seq<Command>, e: Episode, s: Store, i: nat)
    requires Sized(cs, n) && Legal(e, cs) && i < |cs|
    ensures Run(Tagging(server, n), op, Tagged(cs, e.away), s).responses[i] == Seen(e, Run(server, op, cs, s).responses, i)
  {
    TaggedReply(server, op, n, cs, e.away, s, i);
    if e.away[i].None? {
      StayingReply(server, op, cs, e, s, i);
    }
  }

  /** The batch phase: what the blocks leave, and answer. */
  lemma BatchPhase(server: Server, op: KvOp, n: nat, cs: seq<Command>, e: Episode, s: Store)
    requires Sized(cs, n) && Legal(e, cs)
    ensures var t := Run(Tagging(server, n), op, Tagged(cs, e.away), s);
            && t.store == Run(server, op, Done(cs, e, 0), s).store
            && AllSeen(e, Run(server, op, cs, s).responses, t.responses)
  {
    TaggedStore(server, op, n, cs, e.away, s, |cs|);
    assert Done(cs, e, 0) == Pick(cs, Gone(e.away), false, |cs|);
    forall i: nat | i < |cs|
      ensures Run(Tagging(server, n), op, Tagged(cs, e.away), s).responses[i] == Seen(e, Run(server, op, cs, s).responses, i)
    {
      BatchReply(server, op, n, cs, e, s, i);
    }
  }

  // The redirect phase.

  /** A redirected command means the same with its mark. */
  ghost predicate IgnoresMark(server: Server) {
    forall op, c, v :: server(op, c + ["!redirected"], v) == server(op, c, v)
  }

  lemma DoneNext(cs: seq<Command>, e: Episode, d: nat)
    requires d < |cs| == |e.away|
    ensures Done(cs, e, d + 1) == if e.away[d].Some? then Done(cs, e, d) + [cs[d]] else Done(cs, e, d)
  {
  }

  lemma MarkedRun(server: Server, op: KvOp, c: Command, s: Store)
    requires IgnoresMark(server) && c != []
    ensures Run(server, op, [c + ["!redirected"]], s)
         == Ran(Extend(server, op, Ran(s, []), c).store, [Reply(server, op, c, s)])
  {
    assert Key(c + ["!redirected"]) == Key(c);
    RunOne(server, op, c + ["!redirected"], s);
  }

  /** The d-th command, applied by a chain after the ones before it. */
  lemma ChainApplies(server: Server, op: KvOp, cs: seq<Command>, e: Episode, s: Store, d: nat)
    requires IgnoresMark(server) && Legal(e, cs) && d < |cs| && e.away[d].Some? && cs[d] != []
    ensures var r := Run(server, op, [cs[d] + ["!redirected"]], Run(server, op, Done(cs, e, d), s).store);
            && r.store == Run(server, op, Done(cs, e, d + 1), s).store
            && r.responses == [Run(server, op, cs, s).responses[d]]
  {
    var before := Done(cs, e, d);
    MarkedRun(server, op, cs[d], Run(server, op, before, s).store);
    MovedReply(server, op, cs, e, s, d);
    DoneNext(cs, e, d);
    RunSnoc(server, op, before, cs[d], s);
  }

  function Length(route: Route): nat {
    |route.hops| + |route.astray| + 2
  }

  /** All replies to come from the chains asked for a command, when r is that of the one that applies it. */
  function Way(route: Route, r: string): (way: seq<string>)
    ensures |way| == Length(route)
  {
    route.hops + [if route.applied then r else MOVED] + route.astray + [route.last]
  }

  /** The stretch of them that is asked for: a sign starts at the first, another reply at those astray; */
  function From(route: Route, signed: bool): (from: nat)
    ensures from < Length(route)
  {
    if signed then 0 else |route.hops| + 1
  }

  /** where a sign has led to a reply that is none, it ends. */
  function Until(route: Route, signed: bool, r: string): (until: nat)
    ensures From(route, signed) < until <= Length(route)
  {
    if signed && !Exporting(if route.applied then r else MOVED) then |route.hops| + 1
    else Length(route)
  }

  lemma WayShape(route: Route, signed: bool, r: string)
    requires Leads(route) && (!signed ==> Exporting(r))
    ensures var way, from, until := Way(route, r), From(route, signed), Until(route, signed, r);
            && !Exporting(way[until - 1])
            && (forall h :: from <= h < until - 1 ==> Exporting(way[h]))
            && way[until - 1] == (if signed && !route.applied then MOVED else Settled(r, route))
            && (signed ==> |route.hops| < until && way[|route.hops|] == if route.applied then r else MOVED)
  {
    MovedIsFinal();
  }

  function Answers(e: Episode, rs: seq<string>, i: nat): seq<string>
    requires i < |rs| == |e.away| == |e.routes| && Leads(e.routes[i])
  {
    var route, signed := e.routes[i], e.away[i].Some?;
    if !Exporting(Seen(e, rs, i)) then []
    else
      WayShape(route, signed, rs[i]);
      Way(route, rs[i])[From(route, signed)..Until(route, signed, rs[i])]
  }

  /** The requests sent for the first commands: those for command i go to the chains named in its
      replies and carry its arguments. */
  function Requests(cs: seq<Command>, e: Episode, rs: seq<string>, d: nat): (asked: seq<seq<Ask>>)
    requires Legal(e, cs) && d <= |cs| == |rs|
    ensures |asked| == d
    ensures forall i :: 0 <= i < d ==> asked[i] == Asks(Seen(e, rs, i), Answers(e, rs, i), cs[i])
  {
    seq(d, i requires 0 <= i < d => Asks(Seen(e, rs, i), Answers(e, rs, i), cs[i]))
  }

  /** How many commands handle_redirects looks at. */
  function Reached(e: Episode, rs: seq<string>): (d: nat)
    requires |rs| == |e.away| == |e.routes|
    ensures d <= |rs|
  {
    if Stop(e, rs, 0) < |rs| then Stop(e, rs, 0) + 1 else |rs|
  }

  lemma MovedIsFinal()
    ensures !Exporting(MOVED)
  {
    assert MOVED[..10][1] == 'b' && "!exporting"[1] == 'e';
  }

  /** The replies when the first i have been followed. */
  function Partly(e: Episode, rs: seq<string>, i: nat): seq<string>
    requires |rs| == |e.away| == |e.routes|
  {
    seq(|rs|, j requires 0 <= j < |rs| => if j < i then Final(e, rs, j) else Seen(e, rs, j))
  }

  lemma PartlyNext(e: Episode, rs: seq<string>, i: nat)
    requires i < |rs| == |e.away| == |e.routes|
    ensures Partly(e, rs, i)[i] == Seen(e, rs, i)
    ensures Partly(e, rs, i)[i := Final(e, rs, i)] == Partly(e, rs, i + 1)
  {
  }

  /** handle_redirects after the first i commands: the replies, the requests, and the store. */
  datatype Following = Following(final: seq<string>, asked: seq<seq<Ask>>, store: Store)

  function Followed(server: Server, op: KvOp, cs: seq<Command>, e: Episode, s: Store, i: nat): Following
    requires Legal(e, cs) && i <= |cs|
  {
    var rs := Run(server, op, cs, s).responses;
    Following(Partly(e, rs, i), Requests(cs, e, rs, i), Run(server, op, Done(cs, e, i), s).store)
  }

  /** What following one reply is to come to: the reply, the requests, and the store. */
  datatype Handled = Handled(reply: string, asked: seq<Ask>, store: Store)

  /** A reply that exports leads along the way of its command; applied is the store once a chain has
      applied the command. */
  function FollowReply(c: Command, response: string, signed: bool, route: Route, r: string, here: Store, applied: Store): Handled
    requires Leads(route) && (!signed && Exporting(response) ==> response == r)
  {
    if !Exporting(response) then Handled(response, [], here) else
    WayShape(route, signed, r);
    var way, from, until := Way(route, r), From(route, signed), Until(route, signed, r);
    Handled(way[until - 1], Asks(response, way[from..until], c), if signed && route.applied then applied else here)
  }

  /** Along the way: after the chains before hop have been asked. */
  function Walked(c: Command, response: string, signed: bool, route: Route, r: string, here: Store, applied: Store,
                  hop: nat): Handled
    requires From(route, signed) <= hop <= Length(route)
  {
    var way, from := Way(route, r), From(route, signed);
    Handled(Named(response, way[from..hop], hop - from), Asks(response, way[from..hop], c),
            if signed && hop > |route.hops| then applied else here)
  }

  lemma WalkedNext(c: Command, response: string, signed: bool, route: Route, r: string, here: Store, applied: Store, hop: nat)
    requires From(route, signed) <= hop < Length(route)
    ensures var w := Walked(c, response, signed, route, r, here, applied, hop);
            Walked(c, response, signed, route, r, here, applied, hop + 1)
            == Handled(Way(route, r)[hop], w.asked + [Ask(Target(w.reply), c + ["!redirected"])],
                       if hop == |route.hops| then applied else w.store)
  {
    WayNext(c, response, Way(route, r), From(route, signed), hop);
  }

  lemma WayNext(c: Command, response: string, way: seq<string>, from: nat, hop: nat)
    requires from <= hop < |way|
    ensures Named(response, way[from..hop + 1], hop + 1 - from) == way[hop]
    ensures Asks(response, way[from..hop + 1], c)
         == Asks(response, way[from..hop], c) + [Ask(Target(Named(response, way[from..hop], hop - from)), c + ["!redirected"])]
  {
    AsksSnoc(response, way[from..hop], way[hop], c);
    assert way[from..hop + 1] == way[from..hop] + [way[hop]];
  }

  lemma WalkedExports(c: Command, response: string, signed: bool, route: Route, r: string, here: Store, applied: Store, hop: nat)
    requires Leads(route) && (!signed ==> Exporting(r)) && Exporting(response)
    requires From(route, signed) <= hop <= Until(route, signed, r)
    ensures Exporting(Walked(c, response, signed, route, r, here, applied, hop).reply) <==> hop < Until(route, signed, r)
  {
    WayShape(route, signed, r);
  }

  /** Before the chain that may apply the command has been asked, nothing has changed. */
  lemma WalkedBefore(c: Command, response: string, signed: bool, route: Route, r: string, here: Store, applied: Store, hop: nat)
    requires From(route, signed) <= hop <= Length(route)
    ensures hop <= |route.hops| ==> signed && Walked(c, response, signed, route, r, here, applied, hop).store == here
  {
  }

  lemma WalkedEnds(c: Command, response: string, signed: bool, route: Route, r: string, here: Store, applied: Store)
    requires Leads(route) && Exporting(response) && (!signed ==> response == r)
    ensures Walked(c, response, signed, route, r, here, applied, From(route, signed)) == Handled(response, [], here)
    ensures Walked(c, response, signed, route, r, here, if route.applied then applied else here, Until(route, signed, r))
         == FollowReply(c, response, signed, route, r, here, applied)
  {
    WayShape(route, signed, r);
  }

  lemma ReplyFollowed(cs: seq<Command>, e: Episode, rs: seq<string>, i: nat, here: Store, applied: Store)
    requires Legal(e, cs) && i < |cs| == |rs|
    ensures FollowReply(cs[i], Seen(e, rs, i), e.away[i].Some?, e.routes[i], rs[i], here, applied)
         == Handled(Final(e, rs, i), Asks(Seen(e, rs, i), Answers(e, rs, i), cs[i]),
                    if e.away[i].Some? && Applies(e, i) then applied else here)
  {
    MovedIsFinal();
    if Exporting(Seen(e, rs, i)) {
      WayShape(e.routes[i], e.away[i].Some?, rs[i]);
    }
  }

  /** Following the reply to command i comes to its final reply, and to the store with it applied
      exactly if it is applied. */
  lemma OneHandled(server: Server, op: KvOp, cs: seq<Command>, e: Episode, s: Store, i: nat)
    requires IgnoresMark(server) && Legal(e, cs) && i < |cs| && cs[i] != []
    ensures var rs := Run(server, op, cs, s).responses;
            var here := Run(server, op, Done(cs, e, i), s).store;
            var chained := Run(server, op, [cs[i] + ["!redirected"]], here);
            && (e.away[i].Some? ==> chained.responses == [rs[i]])
            && FollowReply(cs[i], Seen(e, rs, i), e.away[i].Some?, e.routes[i], rs[i], here, chained.store)
               == Handled(Final(e, rs, i), Asks(Seen(e, rs, i), Answers(e, rs, i), cs[i]),
                       Run(server, op, Done(cs, e, if Applies(e, i) then i + 1 else i), s).store)
  {
    var here := Run(server, op, Done(cs, e, i), s).store;
    var chained := Run(server, op, [cs[i] + ["!redirected"]], here);
    DoneNext(cs, e, i);
    if e.away[i].Some? {
      ChainApplies(server, op, cs, e, s, i);
    }
    ReplyFollowed(cs, e, Run(server, op, cs, s).responses, i, here, chained.store);
  }

  /** handle_redirects after command i, whether it goes on or not. */
  function FollowedPast(server: Server, op: KvOp, cs: seq<Command>, e: Episode, s: Store, i: nat): Following
    requires Legal(e, cs) && i < |cs|
  {
    var rs := Run(server, op, cs, s).responses;
    Following(Partly(e, rs, i + 1), Requests(cs, e, rs, i + 1),
              Run(server, op, Done(cs, e, if Applies(e, i) then i + 1 else i), s).store)
  }

  lemma RequestsNext(cs: seq<Command>, e: Episode, rs: seq<string>, i: nat, more: seq<Ask>)
    requires Legal(e, cs) && i < |cs| == |rs| && more == Asks(Seen(e, rs, i), Answers(e, rs, i), cs[i])
    ensures Requests(cs, e, rs, i) + [more] == Requests(cs, e, rs, i + 1)
  {
  }

  /** What handle_redirects comes to: no replies if a moved block stops it. */
  datatype Redirected = Redirected(final: Option<seq<string>>, asked: seq<seq<Ask>>, store: Store)

  function Redirecting(server: Server, op: KvOp, cs: seq<Command>, e: Episode, s: Store): Redirected
    requires Legal(e, cs)
  {
    var rs := Run(server, op, cs, s).responses;
    Redirected(if Stops(e, rs) then None else Some(Finals(e, rs)),
               Requests(cs, e, rs, Reached(e, rs)), Run(server, op, Applied(cs, e, rs), s).store)
  }

  /** It ends at a moved block, */
  lemma RedirectsStop(server: Server, op: KvOp, cs: seq<Command>, e: Episode, s: Store, i: nat)
    requires Legal(e, cs) && i < |cs| && i == Stop(e, Run(server, op, cs, s).responses, 0)
    ensures var f := FollowedPast(server, op, cs, e, s, i);
            Redirecting(server, op, cs, e, s) == Redirected(None, f.asked, f.store)
  {
    StopStep(e, Run(server, op, cs, s).responses, i);
  }

  lemma RedirectsOn(server: Server, op: KvOp, cs: seq<Command>, e: Episode, s: Store, i: nat)
    requires Legal(e, cs) && i < |cs| && !StopsHere(e, Run(server, op, cs, s).responses, i)
    ensures FollowedPast(server, op, cs, e, s, i) == Followed(server, op, cs, e, s, i + 1)
  {
  }

  lemma RedirectsNext(server: Server, op: KvOp, cs: seq<Command>, e: Episode, s: Store, i: nat)
    requires Legal(e, cs) && i < |cs| && i <= Stop(e, Run(server, op, cs, s).responses, 0)
    ensures StopsHere(e, Run(server, op, cs, s).responses, i) ==>
              var f := FollowedPast(server, op, cs, e, s, i);
              Redirecting(server, op, cs, e, s) == Redirected(None, f.asked, f.store)
    ensures !StopsHere(e, Run(server, op, cs, s).responses, i) ==>
              && i + 1 <= Stop(e, Run(server, op, cs, s).responses, 0)
              && FollowedPast(server, op, cs, e, s, i) == Followed(server, op, cs, e, s, i + 1)
  {
    StopStep(e, Run(server, op, cs, s).responses, i);
    if StopsHere(e, Run(server, op, cs, s).responses, i) {
      RedirectsStop(server, op, cs, e, s, i);
    } else {
      RedirectsOn(server, op, cs, e, s, i);
    }
  }

  /** or with all replies followed. */
  lemma RedirectsEnd(server: Server, op: KvOp, cs: seq<Command>, e: Episode, s: Store)
    requires Legal(e, cs) && |cs| <= Stop(e, Run(server, op, cs, s).responses, 0)
    ensures var f := Followed(server, op, cs, e, s, |cs|);
            Redirecting(server, op, cs, e, s) == Redirected(Some(f.final), f.asked, f.store)
  {
    var rs := Run(server, op, cs, s).responses;
    StopStep(e, rs, |cs|);
    assert Partly(e, rs, |cs|) == Finals(e, rs);
  }

  lemma RedirectsStart(server: Server, op: KvOp, cs: seq<Command>, e: Episode, s: Store, responses: seq<string>)
    requires Legal(e, cs) && AllSeen(e, Run(server, op, cs, s).responses, responses)
    ensures Followed(server, op, cs, e, s, 0) == Following(responses, [], Run(server, op, Done(cs, e, 0), s).store)
  {
    assert Partly(e, Run(server, op, cs, s).responses, 0) == responses;
  }

  // One attempt as a whole.

  /** Given up, or the replies. */
  datatype Pass = Pass(store: Store, replies: Option<seq<string>>)

  function Tried(server: Server, op: KvOp, cs: seq<Command>, e: Episode, s: Store): (p: Pass)
    requires Legal(e, cs)
    ensures p.replies.Some? ==> |p.replies.value| == |cs|
  {
    var ran := Run(server, op, cs, s);
    if Stops(e, ran.responses) then Pass(Run(server, op, Applied(cs, e, ran.responses), s).store, None)
    else Pass(ran.store, Some(Finals(e, ran.responses)))
  }

  /** A reply that reads like no sign. */
  predicate Plain(response: string) {
    !Exporting(response) && response != MOVED
  }

  predicate AllPlain(rs: seq<string>) {
    forall i :: 0 <= i < |rs| ==> Plain(rs[i])
  }

  /** An attempt gives the replies of one run of the batch exactly when every command is applied and no
      reply reads like a sign. */
  lemma TriedExactly(server: Server, op: KvOp, cs: seq<Command>, e: Episode, s: Store)
    requires Legal(e, cs)
    ensures var ran := Run(server, op, cs, s);
            && (Tried(server, op, cs, e, s) == Pass(ran.store, Some(ran.responses))
                <==> AllApplied(e) && AllPlain(ran.responses))
  {
    var rs := Run(server, op, cs, s).responses;
    if AllApplied(e) && AllPlain(rs) {
      assert !Stops(e, rs);
      assert Finals(e, rs) == rs;
    }
    if !Stops(e, rs) && Finals(e, rs) == rs {
      forall i: nat | i < |cs| ensures Applies(e, i) && Plain(rs[i]) {
        assert !StopsHere(e, rs, i) && Finals(e, rs)[i] == rs[i];
      }
    }
  }

  /** Where nothing moves, exactly when no reply reads like a sign. */
  lemma UnmovedExactly(server: Server, op: KvOp, cs: seq<Command>, e: Episode, s: Store)
    requires Legal(e, cs) && Unmoved(e)
    ensures Tried(server, op, cs, e, s).replies == Some(Run(server, op, cs, s).responses)
       <==> AllPlain(Run(server, op, cs, s).responses)
  {
    TriedExactly(server, op, cs, e, s);
  }

  /** It is the batch and then the redirects. */
  lemma TriedRedirects(server: Server, op: KvOp, cs: seq<Command>, e: Episode, s: Store)
    requires Legal(e, cs)
    ensures var d := Redirecting(server, op, cs, e, s);
            Tried(server, op, cs, e, s) == Pass(d.store, d.final)
  {
    var rs := Run(server, op, cs, s).responses;
    if !Stops(e, rs) {
      AppliedWhole(server, op, cs, e, rs, s);
    }
  }
}
