/** pop and push as the code of one thread, running among the steps of other threads: whatever they do,
    what it does is a run of the monitor's state machine. */
module QueueCalls {
  import opened Common
  import opened MonitorQueue

  /** Thread id has called wait and has not got the mutex back. */
  predicate Waiting<T>(s: State<T>, id: nat) {
    id in s.sleeping + s.woken + s.expired
  }

  /** A step that does not belong to thread id; waking it up or timing it out is none of its doing. */
  predicate ByOthers<T>(s: State<T>, id: nat, step: Step<T>) {
    match step
    case PopLock(i, _) => i != id
    case PushLock(i, _) => i != id
    case Relock(i) => i != id
    case Notify(i, _) => i != id
    case Check => !s.holder.Free? && s.holder.id != id
    case Unlock => !s.holder.Free? && s.holder.id != id
    case Push => !s.holder.Free? && s.holder.id != id
    case _ => true
  }

  lemma OthersKeepThread<T>(late: bool, s: State<T>, step: Step<T>, id: nat)
    requires ByOthers(s, id, step) && Next(late, s, step).Some?
    ensures var t := Next(late, s, step).value;
            && (Outside(s, id) ==> Outside(t, id))
            && (Waiting(s, id) ==> Waiting(t, id))
            && (id in s.timed <==> id in t.timed)
            && (id in s.notifying ==> id in t.notifying)
  {
  }

  /** What others do between two steps of thread id: those of the given steps that are possible. */
  function Possible<T>(late: bool, id: nat, s: State<T>, steps: seq<Step<T>>): seq<Step<T>> {
    if steps == [] then [] else
    var before, step := Possible(late, id, s, steps[..|steps| - 1]), steps[|steps| - 1];
    match Exec(late, s, before)
    case None => before
    case Some(t) => if ByOthers(t, id, step) && Next(late, t, step).Some? then before + [step] else before
  }

  lemma {:induction false} PossibleRuns<T>(late: bool, id: nat, s: State<T>, steps: seq<Step<T>>)
    ensures var t := Exec(late, s, Possible(late, id, s, steps));
            && t.Some?
            && (Outside(s, id) ==> Outside(t.value, id))
            && (Waiting(s, id) ==> Waiting(t.value, id))
            && (id in s.timed <==> id in t.value.timed)
            && (id in s.notifying ==> id in t.value.notifying)
  {
    if steps == [] {
    } else {
      var before, step := Possible(late, id, s, steps[..|steps| - 1]), steps[|steps| - 1];
      PossibleRuns(late, id, s, steps[..|steps| - 1]);
      var t := Exec(late, s, before).value;
      if ByOthers(t, id, step) && Next(late, t, step).Some? {
        ExecNext(late, s, before, step);
        OthersKeepThread(late, t, step, id);
      }
    }
  }

  /** A step that only thread id can make. */
  predicate Own<T>(step: Step<T>, id: nat) {
    (step.PopLock? || step.PushLock? || step.Relock? || step.Notify?) && step.id == id
  }

  /** While thread id does not hold the mutex, all steps but its own are open to the others. */
  lemma OthersExactly<T>(late: bool, s: State<T>, step: Step<T>, id: nat)
    requires Next(late, s, step).Some? && (s.holder.Free? || s.holder.id != id)
    ensures ByOthers(s, id, step) <==> !Own(step, id)
  {
  }

  lemma {:induction false} OthersNeverHold<T>(late: bool, s: State<T>, steps: seq<Step<T>>, id: nat)
    requires Exec(late, s, steps).Some? && (s.holder.Free? || s.holder.id != id)
    requires forall i :: 0 <= i < |steps| ==> !Own(steps[i], id)
    ensures var t := Exec(late, s, steps).value; t.holder.Free? || t.holder.id != id
  {
    if steps == [] {
    } else {
      OthersNeverHold(late, s, steps[..|steps| - 1], id);
    }
  }

  /** So nothing is left out: whatever run of their own the others ask for is what they do. */
  lemma {:induction false} PossibleWhole<T>(late: bool, id: nat, s: State<T>, steps: seq<Step<T>>)
    requires Exec(late, s, steps).Some? && (s.holder.Free? || s.holder.id != id)
    requires forall i :: 0 <= i < |steps| ==> !Own(steps[i], id)
    ensures Possible(late, id, s, steps) == steps
  {
    if steps == [] {
    } else {
      var before, step := steps[..|steps| - 1], steps[|steps| - 1];
      PossibleWhole(late, id, s, before);
      OthersNeverHold(late, s, before, id);
      OthersExactly(late, Exec(late, s, before).value, step, id);
    }
  }

  lemma PossibleOne<T>(late: bool, id: nat, s: State<T>, step: Step<T>)
    ensures Possible(late, id, s, [step]) == if ByOthers(s, id, step) && Next(late, s, step).Some? then [step] else []
    ensures Exec(late, s, [step]) == Next(late, s, step)
  {
    assert [step][..0] == [];
    assert Possible(late, id, s, []) == [];
  }

  /** The state after what the others do at one go. */
  function After<T>(late: bool, id: nat, s: State<T>, steps: seq<Step<T>>): State<T> {
    PossibleRuns(late, id, s, steps);
    Exec(late, s, Possible(late, id, s, steps)).value
  }

  /** The mutex is free, and thread id, if it has waited, has been woken or timed out. */
  predicate CanLock<T>(s: State<T>, id: nat) {
    s.holder.Free? && id !in s.sleeping
  }

  /** Where the others get to before thread id can have the mutex, and what they have left to do. */
  function Until<T>(late: bool, id: nat, s: State<T>, others: seq<seq<Step<T>>>): (State<T>, seq<seq<Step<T>>>)
    decreases |others|
  {
    if CanLock(s, id) || others == [] then (s, others)
    else Until(late, id, After(late, id, s, others[0]), others[1..])
  }

  /** A thread whose time is up first can go on at once. */
  lemma UntilTimedOut<T>(late: bool, s: State<T>, id: nat, others: seq<seq<Step<T>>>)
    requires Apart(s) && s.holder.Free? && id in s.sleeping && id in s.timed && TimesOutFirst(id, others)
    ensures Until(late, id, s, others) == (s.(sleeping := s.sleeping - {id}, expired := s.expired + {id}), others[1..])
  {
    PossibleOne(late, id, s, Timeout(id));
  }

  lemma {:induction false} ExecConcat<T>(late: bool, s: State<T>, first: seq<Step<T>>, second: seq<Step<T>>)
    requires Exec(late, s, first).Some? && Exec(late, Exec(late, s, first).value, second).Some?
    ensures Exec(late, s, first + second) == Exec(late, Exec(late, s, first).value, second)
  {
    if second == [] {
      assert first + second == first;
    } else {
      var before := second[..|second| - 1];
      ExecConcat(late, s, first, before);
      assert (first + second)[..|first + second| - 1] == first + before;
    }
  }

  /** How often thread id has got the mutex for a new call. */
  function Calls<T>(trace: seq<Step<T>>, id: nat): nat {
    if trace == [] then 0
    else
      var last := trace[|trace| - 1];
      Calls(trace[..|trace| - 1], id) + if (last.PopLock? || last.PushLock?) && last.id == id then 1 else 0
  }

  lemma CallsSnoc<T>(trace: seq<Step<T>>, step: Step<T>, id: nat)
    ensures Calls(trace + [step], id) == Calls(trace, id) + if (step.PopLock? || step.PushLock?) && step.id == id then 1 else 0
  {
    assert (trace + [step])[..|trace|] == trace;
  }

  lemma {:induction false} CallsOfOthers<T>(late: bool, id: nat, s: State<T>, steps: seq<Step<T>>, before: seq<Step<T>>)
    ensures Calls(before + Possible(late, id, s, steps), id) == Calls(before, id)
  {
    if steps == [] {
      assert before + Possible(late, id, s, steps) == before;
    } else {
      var earlier, step := Possible(late, id, s, steps[..|steps| - 1]), steps[|steps| - 1];
      CallsOfOthers(late, id, s, steps[..|steps| - 1], before);
      CallsSnoc(before + earlier, step, id);
      assert before + (earlier + [step]) == before + earlier + [step];
    }
  }

  ghost predicate EndsWith<T>(trace: seq<Step<T>>, a: Step<T>, b: Step<T>) {
    |trace| >= 2 && trace[|trace| - 2] == a && trace[|trace| - 1] == b
  }

  /** Blocked: what the others do ends while the call waits for the mutex or for an item. */
  datatype Popped<T> = Item(value: T) | TimedOut | Blocked

  /** The thread can do nothing by itself. */
  predicate Stalled<T>(s: State<T>, id: nat) {
    (Outside(s, id) && !s.holder.Free?) || (Waiting(s, id) && (!s.holder.Free? || id in s.sleeping))
  }

  /** None of its own steps is possible, whatever it wants next. */
  lemma StalledMeans<T>(late: bool, s: State<T>, id: nat, step: Step<T>)
    requires Apart(s) && Stalled(s, id) && Own(step, id)
    ensures Next(late, s, step).None?
  {
  }

  /** The first thing to happen is that the time of thread id is up. */
  predicate TimesOutFirst<T(==)>(id: nat, others: seq<seq<Step<T>>>) {
    others != [] && others[0] == [Timeout(id)]
  }

  class BlockingQueue<T> {
    const late: bool
    /** m_queue, the threads as the model sees them, and the steps so far. */
    var items: seq<T>
    var state: State<T>
    ghost var trace: seq<Step<T>>

    ghost predicate Valid()
      reads this
    {
      Exec(late, Start(), trace) == Some(state) && items == state.queue
    }

    constructor (late: bool)
      ensures Valid() && items == [] && this.late == late
    {
      this.late := late;
      items, state, trace := [], Start(), [];
    }

    /** Other threads run. */
    method Interleave(id: nat, others: seq<Step<T>>)
      requires Valid()
      modifies this
      ensures Valid() && old(trace) <= trace && Calls(trace, id) == Calls(old(trace), id)
      ensures old(Outside(state, id)) ==> Outside(state, id)
      ensures old(Waiting(state, id)) ==> Waiting(state, id)
      ensures id in old(state).timed <==> id in state.timed
      ensures id in old(state).notifying ==> id in state.notifying
      ensures state == After(late, id, old(state), others)
    {
      var steps := Possible(late, id, state, others);
      PossibleRuns(late, id, state, others);
      ExecConcat(late, Start(), trace, steps);
      CallsOfOthers(late, id, state, others, trace);
      trace := trace + steps;
      state := Exec(late, state, steps).value;
      items := state.queue;
    }

    /** The mutex: others run until it is free. */
    method Lock(id: nat, others: seq<seq<Step<T>>>) returns (rest: seq<seq<Step<T>>>)
      requires Valid() && Outside(state, id)
      modifies this
      ensures Valid() && Outside(state, id) && (state.holder.Free? || rest == [])
      ensures old(trace) <= trace && Calls(trace, id) == Calls(old(trace), id)
      ensures old(state).holder.Free? ==> trace == old(trace) && state == old(state) && rest == others
      ensures (state, rest) == Until(late, id, old(state), others)
    {
      rest := others;
      while !state.holder.Free? && rest != []
        invariant Valid() && Outside(state, id)
        invariant old(trace) <= trace && Calls(trace, id) == Calls(old(trace), id)
        invariant old(state).holder.Free? ==> state.holder.Free? && trace == old(trace)
        invariant Until(late, id, state, rest) == Until(late, id, old(state), others)
        decreases |rest|
      {
        Interleave(id, rest[0]);
        rest := rest[1..];
      }
    }

    /** This thread's own step, which may change the queue. */
    method Take(ghost id: nat, step: Step<T>, ghost t: State<T>)
      requires Valid() && Next(late, state, step) == Some(t)
      modifies this
      ensures Valid() && trace == old(trace) + [step] && state == t
      ensures Calls(trace, id) == Calls(old(trace), id) + if (step.PopLock? || step.PushLock?) && step.id == id then 1 else 0
    {
      ExecNext(late, Start(), trace, step);
      CallsSnoc(trace, step, id);
      trace := trace + [step];
      state := Next(late, state, step).value;
      items := state.queue;
    }

    /** What is at the front is the oldest item pushed and not popped. */
    lemma FrontIsOldest()
      requires Valid() && items != []
      ensures |state.popped| < |state.pushed| && items[0] == state.pushed[|state.popped|]
    {
      Fifo(late, trace);
      assert (state.popped + state.queue)[|state.popped|] == state.queue[0];
    }

    /** So what is proved of the runs of the monitor holds of every history of the object. */
    lemma HistoryNeverStuck(poppers: set<nat>, timed: set<nat>)
      requires Valid() && PopsBy(trace, poppers, timed) && (!late || timed == {} || |poppers| <= 1)
      ensures !Stuck(state)
    {
      SafeThreads(late, trace, poppers, timed);
    }

    lemma OnlyTimedExpire(id: nat)
      requires Valid() && id in state.expired
      ensures id in state.timed && id !in state.woken
    {
      Fifo(late, trace);
    }

    /** wait and wait_for: asleep until others, or the clock, or nobody in particular wakes the thread up,
        and then until it gets the mutex back. */
    method Wait(id: nat, others: seq<seq<Step<T>>>) returns (woken: Popped<()>, rest: seq<seq<Step<T>>>)
      requires Valid() && state.holder.Checking? && state.holder.id == id && items == []
      modifies this
      ensures Valid() && old(trace) < trace && Calls(trace, id) == Calls(old(trace), id) && |rest| <= |others|
      ensures id in old(state).timed <==> id in state.timed
      ensures woken.Item? ==> |rest| < |others| && state.holder == Checking(id, true)
      ensures woken.TimedOut? ==> id in state.timed && state.holder == Leaving(id) && trace[|trace| - 1] == Relock(id)
      ensures woken.Blocked? ==> rest == [] && Waiting(state, id) && Stalled(state, id)
      ensures id in old(state).timed && TimesOutFirst(id, others) ==> woken.TimedOut?
      ensures var p := Until(late, id, old(state).(holder := Free, sleeping := old(state).sleeping + {id}), others);
              rest == p.1 && (if woken.Blocked? then state == p.0 else Some(state) == Next(late, p.0, Relock(id)))
    {
      ghost var slept := state.(holder := Free, sleeping := state.sleeping + {id});
      Take(id, Check, slept);
      Fifo(late, trace);
      if id in slept.timed && TimesOutFirst(id, others) {
        UntilTimedOut(late, slept, id, others);
      }
      rest := others;
      while !state.holder.Free? || id in state.sleeping
        invariant Valid() && old(trace) < trace && Calls(trace, id) == Calls(old(trace), id)
        invariant Waiting(state, id) && (id in old(state).timed <==> id in state.timed)
        invariant |rest| <= |others| && (|rest| == |others| ==> id in state.sleeping)
        invariant Until(late, id, state, rest) == Until(late, id, slept, others)
        decreases |rest|
      {
        if rest == [] {
          return Blocked, rest;
        }
        Interleave(id, rest[0]);
        rest := rest[1..];
      }
      woken := Regain(id);
    }

    /** wait and wait_for return with the mutex. */
    method Regain(id: nat) returns (woken: Popped<()>)
      requires Valid() && state.holder.Free? && Waiting(state, id) && id !in state.sleeping
      modifies this
      ensures Valid() && trace == old(trace) + [Relock(id)] && Calls(trace, id) == Calls(old(trace), id)
      ensures state.timed == old(state).timed && !woken.Blocked?
      ensures woken.Item? ==> state.holder == Checking(id, true)
      ensures woken.TimedOut? ==> id in state.timed && state.holder == Leaving(id)
      ensures id in old(state).expired ==> woken.TimedOut?
      ensures Some(state) == Next(late, old(state), Relock(id))
    {
      Fifo(late, trace);
      if id in state.woken {
        Take(id, Relock(id), state.(holder := Checking(id, true), woken := state.woken - {id}));
        woken := Item(());
      } else {
        OnlyTimedExpire(id);
        Take(id, Relock(id), state.(holder := Leaving(id), expired := state.expired - {id}));
        woken := TimedOut;
      }
    }

    /** pop, untimed or timed. What it returns is the oldest item pushed and not popped before, and only
        a timed pop reports a time-out. */
    method Pop(id: nat, timed: bool, others: seq<seq<Step<T>>>) returns (r: Popped<T>)
      requires Valid() && Outside(state, id)
      modifies this
      ensures Valid() && old(trace) <= trace
      ensures Calls(trace, id) == Calls(old(trace), id) + if r.Blocked? && Outside(state, id) then 0 else 1
      ensures r.Item? ==>
                && Outside(state, id) && 0 < |state.popped| <= |state.pushed|
                && r.value == state.popped[|state.popped| - 1] == state.pushed[|state.popped| - 1]
                && EndsWith(trace, Check, Unlock)
      ensures r.TimedOut? ==> timed && Outside(state, id) && EndsWith(trace, Relock(id), Unlock)
      ensures r.Blocked? ==> Stalled(state, id)
      ensures old(state.holder.Free?) && old(items) != [] ==> r == Item(old(items)[0]) && items == old(items)[1..]
      ensures timed && old(state.holder.Free?) && old(items) == [] && TimesOutFirst(id, others) ==> r.TimedOut?
    {
      var rest := Lock(id, others);
      if !state.holder.Free? {
        return Blocked;
      }
      Enter(id, timed);
      var woken := AwaitItem(id, rest);
      if woken.Blocked? {
        return Blocked;
      }
      r := Finish(id, woken);
    }

    /** Past the loop, or out of it by the exception. */
    method Finish(id: nat, woken: Popped<()>) returns (r: Popped<T>)
      requires Valid() && !woken.Blocked?
      requires woken.Item? ==> state.holder.Checking? && state.holder.id == id && items != []
      requires woken.TimedOut? ==> state.holder == Leaving(id) && trace != [] && trace[|trace| - 1] == Relock(id)
      modifies this
      ensures Valid() && old(trace) <= trace && Calls(trace, id) == Calls(old(trace), id) && Outside(state, id)
      ensures r.Item? ==>
                && woken.Item? && 0 < |state.popped| <= |state.pushed|
                && r.value == state.popped[|state.popped| - 1] == state.pushed[|state.popped| - 1]
                && EndsWith(trace, Check, Unlock) && r.value == old(items)[0] && items == old(items)[1..]
      ensures !r.Item? ==> r.TimedOut? && woken.TimedOut? && EndsWith(trace, Relock(id), Unlock)
    {
      if woken.TimedOut? {
        Leave(id);
        r := TimedOut;
      } else {
        var item := TakeFront(id);
        r := Item(item);
      }
    }

    /** The loop of pop. */
    method AwaitItem(id: nat, others: seq<seq<Step<T>>>) returns (woken: Popped<()>)
      requires Valid() && state.holder.Checking? && state.holder.id == id
      modifies this
      ensures Valid() && old(trace) <= trace && Calls(trace, id) == Calls(old(trace), id)
      ensures woken.Item? ==> state.holder.Checking? && state.holder.id == id && items != []
      ensures woken.TimedOut? ==>
                && id in old(state).timed && state.holder == Leaving(id)
                && |old(trace)| < |trace| && trace[|trace| - 1] == Relock(id)
      ensures woken.Blocked? ==> Waiting(state, id) && Stalled(state, id)
      ensures old(items) != [] ==> woken.Item? && items == old(items)
      ensures id in old(state).timed && old(items) == [] && TimesOutFirst(id, others) ==> woken.TimedOut?
    {
      var rest := others;
      while items == []
        invariant Valid() && old(trace) <= trace && Calls(trace, id) == Calls(old(trace), id)
        invariant state.holder.Checking? && state.holder.id == id && (id in state.timed <==> id in old(state).timed)
        invariant old(items) != [] ==> items == old(items)
        invariant id in old(state).timed && old(items) == [] && TimesOutFirst(id, others) ==> items == [] && rest == others
        decreases |rest|
      {
        woken, rest := Wait(id, rest);
        if !woken.Item? {
          return;
        }
      }
      woken := Item(());
    }

    method Enter(id: nat, timed: bool)
      requires Valid() && Outside(state, id) && state.holder.Free?
      modifies this
      ensures Valid() && trace == old(trace) + [PopLock(id, timed)] && Calls(trace, id) == Calls(old(trace), id) + 1
      ensures state.holder == Checking(id, false) && (id in state.timed <==> timed) && items == old(items)
    {
      Take(id, PopLock(id, timed),
           state.(holder := Checking(id, false), timed := if timed then state.timed + {id} else state.timed - {id}));
    }

    /** The front item leaves the queue, and the lock goes out of scope. */
    method TakeFront(id: nat) returns (item: T)
      requires Valid() && state.holder.Checking? && state.holder.id == id && items != []
      modifies this
      ensures Valid() && old(trace) <= trace && EndsWith(trace, Check, Unlock) && Calls(trace, id) == Calls(old(trace), id)
      ensures Outside(state, id) && 0 < |state.popped| <= |state.pushed|
      ensures item == state.popped[|state.popped| - 1] == state.pushed[|state.popped| - 1]
      ensures item == old(items)[0] && items == old(items)[1..]
    {
      FrontIsOldest();
      item := items[0];
      Take(id, Check, state.(holder := Leaving(id), queue := state.queue[1..], popped := state.popped + [state.queue[0]]));
      Leave(id);
    }

    /** The lock goes out of scope. */
    method Leave(id: nat)
      requires Valid() && state.holder == Leaving(id)
      modifies this
      ensures Valid() && trace == old(trace) + [Unlock] && state == old(state).(holder := Free)
      ensures Outside(state, id) && Calls(trace, id) == Calls(old(trace), id)
    {
      Fifo(late, trace);
      Take(id, Unlock, state.(holder := Free));
    }

    /** push: the item joins the queue under the lock; the notify comes after it is released, when
        others may have run again. */
    method Push(id: nat, item: T, others: seq<seq<Step<T>>>, between: seq<Step<T>>, target: nat)
      returns (done: bool, ghost start: nat)
      requires Valid() && Outside(state, id)
      modifies this
      ensures Valid() && old(trace) <= trace && Outside(state, id)
      ensures old(state).holder.Free? ==> done && start == |old(trace)|
      ensures Calls(trace, id) == Calls(old(trace), id) + if done then 1 else 0
      ensures done ==>
                && |old(trace)| <= start && start + 3 < |trace|
                && trace[start..start + 3] == [PushLock(id, item), MonitorQueue.Push, Unlock]
                && trace[|trace| - 1].Notify? && trace[|trace| - 1].id == id
      ensures !done ==> Stalled(state, id)
    {
      var rest := Lock(id, others);
      start := |trace|;
      if !state.holder.Free? {
        return false, start;
      }
      AddItem(id, item);
      Interleave(id, between);
      NotifyOne(id, target);
      done := true;
    }

    /** push, as far as it holds the mutex. */
    method AddItem(id: nat, item: T)
      requires Valid() && Outside(state, id) && state.holder.Free?
      modifies this
      ensures Valid() && trace == old(trace) + [PushLock(id, item), MonitorQueue.Push, Unlock]
      ensures items == old(items) + [item] && id in state.notifying && Calls(trace, id) == Calls(old(trace), id) + 1
    {
      Take(id, PushLock(id, item), state.(holder := Pushing(id, item)));
      Take(id, MonitorQueue.Push, state.(holder := Pushed(id), queue := state.queue + [item], pushed := state.pushed + [item]));
      Take(id, Unlock, state.(holder := Free, notifying := state.notifying + {id}));
    }

    /** notify_one: some sleeping thread is woken, if there is one. */
    method NotifyOne(id: nat, target: nat)
      requires Valid() && id in state.notifying
      modifies this
      ensures Valid() && Outside(state, id)
      ensures exists chosen: nat :: trace == old(trace) + [Notify(id, chosen)]
      ensures Calls(trace, id) == Calls(old(trace), id)
    {
      Fifo(late, trace);
      if state.sleeping == {} {
        Take(id, Notify(id, target), state.(notifying := state.notifying - {id}));
      } else {
        var chosen := target;
        if target !in state.sleeping {
          chosen :| chosen in state.sleeping;
        }
        Take(id, Notify(id, chosen), state.(notifying := state.notifying - {id}, sleeping := state.sleeping - {chosen},
                                        woken := state.woken + {chosen}));
      }
    }
  }
}
