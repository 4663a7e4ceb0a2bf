/** The connections of the sharded client when one of them fails inside batch_command. The exception leaves
    the loops half done: connections whose request is out stay in flight, and send_command refuses a second
    one on them. */
module InFlight {
  import opened Common
  import opened KvStore
  import opened Scatter

  /** Where the connection fails: while block b is sent its request, or while its response is awaited. */
  datatype Loss = Sending(b: nat) | Receiving(b: nat)

  datatype End = Returned | TransportError | LengthError

  /** Block b has commands of the batch. */
  predicate Busy(owner: Placement, cs: seq<Command>, b: nat) {
    Positions(owner, cs, b) != []
  }

  lemma BusyExactly(owner: Placement, cs: seq<Command>, b: nat)
    ensures Busy(owner, cs, b) <==> exists i :: 0 <= i < |cs| && owner(Key(cs[i])) == b
  {
    if Busy(owner, cs, b) {
      PositionsPoint(owner, cs, b, 0);
    }
    if i :| 0 <= i < |cs| && owner(Key(cs[i])) == b {
      var j := PositionOf(owner, cs, i);
    }
  }

  function BusyBlocks(owner: Placement, cs: seq<Command>, count: nat): (busy: seq<bool>)
    ensures |busy| == count && forall b :: 0 <= b < count ==> (busy[b] <==> Busy(owner, cs, b))
  {
    seq(count, b requires 0 <= b < count => Busy(owner, cs, b))
  }

  /** The sending loop stops at block b. */
  predicate StopsSending(flying: seq<bool>, busy: seq<bool>, loss: Option<Loss>, b: nat)
    requires |flying| == |busy| && b < |busy|
  {
    busy[b] && (flying[b] || loss == Some(Sending(b)))
  }

  /** The first block the sending loop stops at, if any. */
  function FirstStop(flying: seq<bool>, busy: seq<bool>, loss: Option<Loss>, b: nat): (i: nat)
    requires |flying| == |busy| && b <= |busy|
    ensures b <= i <= |busy| && (i < |busy| ==> StopsSending(flying, busy, loss, i))
    ensures forall j :: b <= j < i ==> !StopsSending(flying, busy, loss, j)
    decreases |busy| - b
  {
    if b == |busy| || StopsSending(flying, busy, loss, b) then b else FirstStop(flying, busy, loss, b + 1)
  }

  /** The response of block i is lost. */
  predicate LosesResponse(busy: seq<bool>, loss: Option<Loss>, i: nat) {
    i < |busy| && busy[i] && loss == Some(Receiving(i))
  }

  /** The batch leaves block b in flight: it was sent to before the sending loop stopped, or it had not been
      heard when the receiving loop did. */
  predicate Leaves(flying: seq<bool>, busy: seq<bool>, loss: Option<Loss>, b: nat)
    requires |flying| == |busy| && b < |busy|
  {
    var i := FirstStop(flying, busy, loss, 0);
    busy[b] && if i < |busy| then b < i else exists f :: 0 <= f <= b && LosesResponse(busy, loss, f)
  }

  function EndOf(flying: seq<bool>, busy: seq<bool>, loss: Option<Loss>): End
    requires |flying| == |busy|
  {
    var i := FirstStop(flying, busy, loss, 0);
    if i < |busy| then (if flying[i] then LengthError else TransportError)
    else if exists f :: 0 <= f < |busy| && LosesResponse(busy, loss, f) then TransportError
    else Returned
  }

  class Connections {
    /** in_flight_ of the client behind each block. */
    var inFlight: seq<bool>

    constructor (count: nat)
      ensures inFlight == seq(count, _ => false)
    {
      inFlight := seq(count, _ => false);
    }

    method BatchCommand(owner: Placement, cs: seq<Command>, loss: Option<Loss>) returns (end: End)
      modifies this
      ensures var busy := BusyBlocks(owner, cs, old(|inFlight|));
              && |inFlight| == old(|inFlight|) && end == EndOf(old(inFlight), busy, loss)
              && forall b :: 0 <= b < |inFlight| ==> (inFlight[b] <==> old(inFlight[b]) || Leaves(old(inFlight), busy, loss, b))
    {
      end := Batch(BusyBlocks(owner, cs, |inFlight|), loss);
    }

    /** batch_command, second and third loop. */
    method Batch(busy: seq<bool>, loss: Option<Loss>) returns (end: End)
      requires |busy| == |inFlight|
      modifies this
      ensures |inFlight| == old(|inFlight|) && end == EndOf(old(inFlight), busy, loss)
      ensures forall b :: 0 <= b < |inFlight| ==> (inFlight[b] <==> old(inFlight[b]) || Leaves(old(inFlight), busy, loss, b))
    {
      ghost var flying := inFlight;
      var sent := SendAll(busy, loss);
      if sent != Returned {
        return sent;
      }
      forall b | 0 <= b < |busy| && busy[b] ensures !flying[b] {
        assert !StopsSending(flying, busy, loss, b);
      }
      end := ReceiveAll(busy, loss, flying);
    }

    method SendAll(busy: seq<bool>, loss: Option<Loss>) returns (end: End)
      requires |busy| == |inFlight|
      modifies this
      ensures var stop := FirstStop(old(inFlight), busy, loss, 0);
              && |inFlight| == old(|inFlight|)
              && (forall b :: 0 <= b < |inFlight| ==> (inFlight[b] <==> old(inFlight[b]) || (busy[b] && b < stop)))
              && end == (if stop == |busy| then Returned else if old(inFlight)[stop] then LengthError else TransportError)
    {
      for i := 0 to |busy|
        invariant |inFlight| == old(|inFlight|) && i <= FirstStop(old(inFlight), busy, loss, 0)
        invariant forall b :: 0 <= b < |inFlight| ==> (inFlight[b] <==> old(inFlight[b]) || (busy[b] && b < i))
      {
        if busy[i] {
          assert StopsSending(old(inFlight), busy, loss, i) <==> inFlight[i] || loss == Some(Sending(i));
          if inFlight[i] {
            return LengthError;
          }
          if loss == Some(Sending(i)) {
            return TransportError;
          }
          inFlight := inFlight[i := true];
        }
      }
      end := Returned;
    }

    method ReceiveAll(busy: seq<bool>, loss: Option<Loss>, ghost flying: seq<bool>) returns (end: End)
      requires |busy| == |inFlight| == |flying| && forall b :: 0 <= b < |busy| ==> (busy[b] ==> !flying[b])
      requires forall b :: 0 <= b < |inFlight| ==> (inFlight[b] <==> flying[b] || busy[b])
      modifies this
      ensures |inFlight| == old(|inFlight|)
      ensures end == if exists f :: 0 <= f < |busy| && LosesResponse(busy, loss, f) then TransportError else Returned
      ensures forall b :: 0 <= b < |inFlight| ==>
                (inFlight[b] <==> flying[b] || (busy[b] && exists f :: 0 <= f <= b && LosesResponse(busy, loss, f)))
    {
      for i := 0 to |busy|
        invariant |inFlight| == old(|inFlight|) && forall f :: 0 <= f < i ==> !LosesResponse(busy, loss, f)
        invariant forall b :: 0 <= b < |inFlight| ==> (inFlight[b] <==> flying[b] || (busy[b] && i <= b))
      {
        if busy[i] {
          if loss == Some(Receiving(i)) {
            assert LosesResponse(busy, loss, i);
            return TransportError;
          }
          inFlight := inFlight[i := false];
        }
      }
      end := Returned;
    }
  }

  // Batch after batch.

  /** One batch: the blocks it has commands for, and where a connection fails. */
  datatype Attempt = Attempt(busy: seq<bool>, loss: Option<Loss>)

  /** Every batch is over the same blocks. */
  predicate AllOver(attempts: seq<Attempt>, count: nat) {
    forall k :: 0 <= k < |attempts| ==> |attempts[k].busy| == count
  }

  /** The connections in flight after the first n batches. */
  function Flying(count: nat, attempts: seq<Attempt>, n: nat): (flying: seq<bool>)
    requires AllOver(attempts, count) && n <= |attempts|
    ensures |flying| == count
    decreases n
  {
    if n == 0 then seq(count, _ => false) else
    var before, a := Flying(count, attempts, n - 1), attempts[n - 1];
    seq(count, b requires 0 <= b < count => before[b] || Leaves(before, a.busy, a.loss, b))
  }

  function EndAt(count: nat, attempts: seq<Attempt>, n: nat): End
    requires AllOver(attempts, count) && n < |attempts|
  {
    EndOf(Flying(count, attempts, n), attempts[n].busy, attempts[n].loss)
  }

  /** Batch n loses a connection it uses. */
  predicate Hit(a: Attempt) {
    a.loss.Some? && a.loss.value.b < |a.busy| && a.busy[a.loss.value.b]
  }

  /** Batch k leaves block b in flight. */
  predicate LeftBy(count: nat, attempts: seq<Attempt>, k: nat, b: nat)
    requires AllOver(attempts, count) && k < |attempts| && b < count
  {
    Leaves(Flying(count, attempts, k), attempts[k].busy, attempts[k].loss, b)
  }

  /** A batch among the first n does. */
  predicate LeftBefore(count: nat, attempts: seq<Attempt>, n: nat, b: nat)
    requires AllOver(attempts, count) && n <= |attempts| && b < count
  {
    exists k :: 0 <= k < n && LeftBy(count, attempts, k, b)
  }

  lemma LeftNext(count: nat, attempts: seq<Attempt>, n: nat, b: nat)
    requires AllOver(attempts, count) && n < |attempts| && b < count
    ensures LeftBefore(count, attempts, n + 1, b) <==> LeftBefore(count, attempts, n, b) || LeftBy(count, attempts, n, b)
  {
  }

  lemma FlyingNext(count: nat, attempts: seq<Attempt>, n: nat, b: nat)
    requires AllOver(attempts, count) && n < |attempts| && b < count
    ensures Flying(count, attempts, n + 1)[b] <==> Flying(count, attempts, n)[b] || LeftBy(count, attempts, n, b)
  {
  }

  /** A connection is in flight for good, until refresh makes new ones: exactly from the first batch on that
      leaves it so. */
  lemma {:induction false} FlyingExactly(count: nat, attempts: seq<Attempt>, n: nat, b: nat)
    requires AllOver(attempts, count) && n <= |attempts| && b < count
    ensures Flying(count, attempts, n)[b] <==> LeftBefore(count, attempts, n, b)
    decreases n
  {
    if n == 0 {
    } else {
      FlyingExactly(count, attempts, n - 1, b);
      FlyingNext(count, attempts, n - 1, b);
      LeftNext(count, attempts, n - 1, b);
    }
  }

  /** A batch returns exactly if no connection it uses fails or is still in flight. */
  lemma ReturnsExactly(count: nat, attempts: seq<Attempt>, n: nat)
    requires AllOver(attempts, count) && n < |attempts|
    ensures EndAt(count, attempts, n) == Returned
       <==> !Hit(attempts[n]) && forall b :: 0 <= b < count && attempts[n].busy[b] ==> !Flying(count, attempts, n)[b]
  {
    var flying, busy, loss := Flying(count, attempts, n), attempts[n].busy, attempts[n].loss;
    var i := FirstStop(flying, busy, loss, 0);
    if EndAt(count, attempts, n) == Returned {
      forall b | 0 <= b < count && busy[b] ensures !flying[b] {
        assert !StopsSending(flying, busy, loss, b);
      }
      if loss.Some? && loss.value.b < count {
        assert !LosesResponse(busy, loss, loss.value.b) && !StopsSending(flying, busy, loss, loss.value.b);
      }
    } else if !Hit(attempts[n]) {
      assert i < |busy|;
    }
  }

  /** A batch that returns leaves nothing in flight that was not. */
  lemma ReturnedLeavesNothing(count: nat, attempts: seq<Attempt>, n: nat)
    requires AllOver(attempts, count) && n < |attempts| && EndAt(count, attempts, n) == Returned
    ensures Flying(count, attempts, n + 1) == Flying(count, attempts, n)
  {
  }

  /** A batch that cannot send to block f, the first of its blocks that is in flight or fails, adds exactly its
      blocks before f to those in flight. */
  lemma StopsWhileSending(count: nat, attempts: seq<Attempt>, n: nat, f: nat, b: nat)
    requires AllOver(attempts, count) && n < |attempts| && f < count && b < count && attempts[n].busy[f]
    requires Flying(count, attempts, n)[f] || attempts[n].loss == Some(Sending(f))
    requires forall g :: 0 <= g < f && attempts[n].busy[g] ==> !Flying(count, attempts, n)[g] && attempts[n].loss != Some(Sending(g))
    ensures EndAt(count, attempts, n) == if Flying(count, attempts, n)[f] then LengthError else TransportError
    ensures Flying(count, attempts, n + 1)[b] <==> Flying(count, attempts, n)[b] || (attempts[n].busy[b] && b < f)
  {
    var flying, busy, loss := Flying(count, attempts, n), attempts[n].busy, attempts[n].loss;
    assert StopsSending(flying, busy, loss, f);
    assert FirstStop(flying, busy, loss, 0) == f;
    FlyingNext(count, attempts, n, b);
  }

  /** After the first batch loses the response of block f, exactly its blocks from f on are in flight. */
  lemma FirstLoss(count: nat, attempts: seq<Attempt>, f: nat, b: nat)
    requires AllOver(attempts, count) && attempts != [] && LosesResponse(attempts[0].busy, attempts[0].loss, f) && b < count
    ensures EndAt(count, attempts, 0) == TransportError
    ensures Flying(count, attempts, 1)[b] <==> attempts[0].busy[b] && f <= b
  {
    assert FirstStop(Flying(count, attempts, 0), attempts[0].busy, attempts[0].loss, 0) == count;
    assert Flying(count, attempts, 0)[b] == false;
  }
}
