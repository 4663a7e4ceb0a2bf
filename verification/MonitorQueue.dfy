/** The blocking queues: one mutex, one condition variable, any number of pushing and popping
    threads. A step is one thread's move from one point of its call to the next. */
module MonitorQueue {
  import opened Common

  /** Who holds the mutex, and where in its call it is. A popping thread in the loop remembers
      whether a wake-up brought it there. */
  datatype Holder<T> =
    | Free
    | Checking(id: nat, woken: bool)
    | Leaving(id: nat)
    | Pushing(id: nat, item: T)
    | Pushed(id: nat)

  /** sleeping: in wait. woken: left wait, want the mutex back. expired: wait_for reported a
      time-out, want the mutex back only to throw. notifying: unlocked after a push, about to call
      notify_one. timed: the threads whose last pop has a time-out. pushed and popped are the history. */
  datatype State<T> = State(
    queue: seq<T>, holder: Holder<T>,
    sleeping: set<nat>, woken: set<nat>, expired: set<nat>, notifying: set<nat>, timed: set<nat>,
    pushed: seq<T>, popped: seq<T>)

  datatype Step<T> =
    | PopLock(id: nat, timed: bool)
    | Check
    | Unlock
    | Relock(id: nat)
    | PushLock(id: nat, item: T)
    | Push
    | Notify(id: nat, target: nat)
    | Spurious(id: nat)
    | Timeout(id: nat)
    | LateTimeout(id: nat)

  function Start<T>(): State<T> {
    State([], Free, {}, {}, {}, {}, {}, [], [])
  }

  predicate Outside<T>(s: State<T>, id: nat) {
    id !in s.sleeping + s.woken + s.expired + s.notifying && (s.holder.Free? || s.holder.id != id)
  }

  /** late: may wait_for report a time-out to a thread that a notify_one has already chosen? */
  function Next<T>(late: bool, s: State<T>, step: Step<T>): Option<State<T>> {
    match step
    case PopLock(id, timed) =>
      if s.holder.Free? && Outside(s, id) then
        Some(s.(holder := Checking(id, false), timed := if timed then s.timed + {id} else s.timed - {id}))
      else None
    case Check =>
      if !s.holder.Checking? then None
      else if s.queue == [] then Some(s.(holder := Free, sleeping := s.sleeping + {s.holder.id}))
      else Some(s.(holder := Leaving(s.holder.id), queue := s.queue[1..], popped := s.popped + [s.queue[0]]))
    case Unlock =>
      if s.holder.Leaving? then Some(s.(holder := Free))
      else if s.holder.Pushed? then Some(s.(holder := Free, notifying := s.notifying + {s.holder.id}))
      else None
    case Relock(id) =>
      if !s.holder.Free? then None
      else if id in s.woken then Some(s.(holder := Checking(id, true), woken := s.woken - {id}))
      else if id in s.expired then Some(s.(holder := Leaving(id), expired := s.expired - {id}))
      else None
    case PushLock(id, item) =>
      if s.holder.Free? && Outside(s, id) then Some(s.(holder := Pushing(id, item))) else None
    case Push =>
      if s.holder.Pushing? then
        Some(s.(holder := Pushed(s.holder.id), queue := s.queue + [s.holder.item], pushed := s.pushed + [s.holder.item]))
      else None
    case Notify(id, target) =>
      if id !in s.notifying then None
      else if s.sleeping == {} then Some(s.(notifying := s.notifying - {id}))
      else if target in s.sleeping then
        Some(s.(notifying := s.notifying - {id}, sleeping := s.sleeping - {target}, woken := s.woken + {target}))
      else None
    case Spurious(id) =>
      if id in s.sleeping then Some(s.(sleeping := s.sleeping - {id}, woken := s.woken + {id})) else None
    case Timeout(id) =>
      if id in s.sleeping * s.timed then Some(s.(sleeping := s.sleeping - {id}, expired := s.expired + {id})) else None
    case LateTimeout(id) =>
      if late && id in s.woken * s.timed then Some(s.(woken := s.woken - {id}, expired := s.expired + {id})) else None
  }

  function Exec<T>(late: bool, s: State<T>, steps: seq<Step<T>>): Option<State<T>> {
    if steps == [] then Some(s)
    else match Exec(late, s, steps[..|steps| - 1])
         case None => None
         case Some(t) => Next(late, t, steps[|steps| - 1])
  }

  // Order.

  /** No thread is at two points at once, and only a timed pop times out. */
  predicate Apart<T>(s: State<T>) {
    && s.sleeping !! s.woken !! s.expired !! s.notifying && s.expired <= s.timed
    && (s.holder.Free? || s.holder.id !in s.sleeping + s.woken + s.expired + s.notifying)
  }

  lemma FifoStep<T>(late: bool, s: State<T>, step: Step<T>)
    requires s.popped + s.queue == s.pushed && Next(late, s, step).Some?
    ensures var t := Next(late, s, step).value; t.popped + t.queue == t.pushed
  {
    if step.Check? && s.queue != [] {
      assert s.popped + [s.queue[0]] + s.queue[1..] == s.popped + s.queue;
    }
  }

  lemma ApartStep<T>(late: bool, s: State<T>, step: Step<T>)
    requires Apart(s) && Next(late, s, step).Some?
    ensures Apart(Next(late, s, step).value)
  {
  }

  /** What has been popped, followed by what is queued, is what was pushed, in push order. */
  lemma {:induction false} Fifo<T>(late: bool, steps: seq<Step<T>>)
    requires Exec(late, Start(), steps).Some?
    ensures var s := Exec(late, Start(), steps).value; s.popped + s.queue == s.pushed && Apart(s)
  {
    if steps == [] {
    } else {
      var before := steps[..|steps| - 1];
      Fifo(late, before);
      FifoStep(late, Exec(late, Start(), before).value, steps[|steps| - 1]);
      ApartStep(late, Exec(late, Start(), before).value, steps[|steps| - 1]);
    }
  }

  // Time-outs.

  lemma TwoSteps<T>(late: bool, s: State<T>, first: Step<T>, second: Step<T>)
    ensures Exec(late, s, [first, second])
         == match Next(late, s, first)
            case None => None
            case Some(t) => Next(late, t, second)
  {
    assert [first, second][..1] == [first] && [first][..0] == [];
    assert Exec(late, s, [first]) == Next(late, s, first);
  }

  /** In every reachable state a sleeping thread of a timed pop can be timed out. */
  lemma CanTimeOut<T>(late: bool, steps: seq<Step<T>>, s: State<T>, id: nat)
    requires Exec(late, Start(), steps) == Some(s) && id in s.sleeping && id in s.timed
    ensures Next(late, s, Timeout(id)) == Some(s.(sleeping := s.sleeping - {id}, expired := s.expired + {id}))
    ensures id !in s.woken && id !in s.expired
  {
    Fifo(late, steps);
  }

  /** Whatever the others do, it stays timed out until it gets the mutex, */
  lemma {:induction false} StaysTimedOut<T>(late: bool, s: State<T>, between: seq<Step<T>>, id: nat)
    requires Exec(late, s, between).Some? && id in s.expired && Apart(s) && Relock(id) !in between
    ensures Apart(Exec(late, s, between).value) && id in Exec(late, s, between).value.expired
  {
    if between == [] {
    } else {
      var before, last := between[..|between| - 1], between[|between| - 1];
      StaysTimedOut(late, s, before, id);
      ApartStep(late, Exec(late, s, before).value, last);
      assert last != Relock(id);
    }
  }

  /** and once the mutex is free it leaves with nothing, and queue and history stay as they are. */
  lemma TimedOutLeaves<T>(late: bool, steps: seq<Step<T>>, s: State<T>, between: seq<Step<T>>, u: State<T>, id: nat)
    requires Exec(late, Start(), steps) == Some(s) && id in s.sleeping && id in s.timed
    requires Next(late, s, Timeout(id)).Some? && Exec(late, Next(late, s, Timeout(id)).value, between) == Some(u)
    requires Relock(id) !in between && u.holder.Free?
    ensures Exec(late, u, [Relock(id), Unlock]) == Some(u.(expired := u.expired - {id}))
    ensures Outside(u.(expired := u.expired - {id}), id)
  {
    Fifo(late, steps);
    var t := Next(late, s, Timeout(id)).value;
    ApartStep(late, s, Timeout(id));
    StaysTimedOut(late, t, between, id);
    TwoSteps(late, u, Relock(id), Unlock);
  }

  /** A thread that wakes up for no reason and finds nothing sleeps again. */
  lemma SpuriousSleepsAgain<T>(late: bool, s: State<T>, id: nat)
    requires Apart(s) && id in s.sleeping && s.holder.Free? && s.queue == []
    ensures Next(late, s, Spurious(id)).Some?
    ensures Exec(late, Next(late, s, Spurious(id)).value, [Relock(id), Check]) == Some(s)
  {
    var t := Next(late, s, Spurious(id)).value;
    TwoSteps(late, t, Relock(id), Check);
    assert t.woken - {id} == s.woken && t.sleeping + {id} == s.sleeping;
  }

  // Wake-ups.

  /** Threads that are sure to look at the queue or to wake one that will. */
  function Active<T>(s: State<T>): nat {
    |s.notifying| + |s.woken| + if s.holder.Pushed? || (s.holder.Checking? && s.holder.woken) then 1 else 0
  }

  /** While anyone sleeps, every queued item has a notify or a woken thread of its own. */
  predicate Covered<T>(s: State<T>) {
    s.sleeping != {} ==> |s.queue| <= Active(s)
  }

  lemma Shrinks(a: set<nat>, id: nat)
    ensures |a - {id}| == if id in a then |a| - 1 else |a|
  {
    if id !in a {
      assert a - {id} == a;
    }
  }

  lemma Grows(a: set<nat>, id: nat)
    ensures |a + {id}| == if id in a then |a| else |a| + 1
  {
    if id in a {
      assert a + {id} == a;
    }
  }

  lemma NotifyCovered<T>(late: bool, s: State<T>, id: nat, target: nat)
    requires Apart(s) && Covered(s) && Next(late, s, Notify(id, target)).Some?
    ensures Covered(Next(late, s, Notify(id, target)).value)
  {
    Shrinks(s.notifying, id);
    Grows(s.woken, target);
  }

  lemma RelockCovered<T>(late: bool, s: State<T>, id: nat)
    requires Covered(s) && Next(late, s, Relock(id)).Some?
    ensures Covered(Next(late, s, Relock(id)).value)
  {
    Shrinks(s.woken, id);
  }

  lemma SpuriousCovered<T>(late: bool, s: State<T>, id: nat)
    requires Covered(s) && id in s.sleeping
    ensures Covered(Next(late, s, Spurious(id)).value)
  {
    Grows(s.woken, id);
  }

  lemma UnlockCovered<T>(late: bool, s: State<T>)
    requires Apart(s) && Covered(s) && Next(late, s, Unlock).Some?
    ensures Covered(Next(late, s, Unlock).value)
  {
    if s.holder.Pushed? {
      Grows(s.notifying, s.holder.id);
    }
  }

  lemma CoveredStep<T>(late: bool, s: State<T>, step: Step<T>)
    requires Apart(s) && Covered(s) && Next(late, s, step).Some? && !step.LateTimeout?
    ensures Covered(Next(late, s, step).value)
  {
    match step
    case Notify(id, target) => NotifyCovered(late, s, id, target);
    case Relock(id) => RelockCovered(late, s, id);
    case Spurious(id) => SpuriousCovered(late, s, id);
    case Unlock => UnlockCovered(late, s);
    case _ =>
  }

  /** Only threads of poppers pop, and only those of timed pop with a time-out. */
  predicate PopsBy<T>(steps: seq<Step<T>>, poppers: set<nat>, timed: set<nat>) {
    forall i :: 0 <= i < |steps| && steps[i].PopLock? ==> steps[i].id in poppers && (steps[i].timed ==> steps[i].id in timed)
  }

  lemma {:induction false} TimedRun<T>(late: bool, steps: seq<Step<T>>, poppers: set<nat>, timed: set<nat>)
    requires Exec(late, Start(), steps).Some? && PopsBy(steps, poppers, timed)
    ensures Exec(late, Start<T>(), steps).value.timed <= timed
  {
    if steps == [] {
    } else {
      TimedRun(late, steps[..|steps| - 1], poppers, timed);
    }
  }

  lemma {:induction false} CoveredRun<T>(late: bool, steps: seq<Step<T>>, poppers: set<nat>, timed: set<nat>)
    requires Exec(late, Start(), steps).Some? && PopsBy(steps, poppers, timed) && (!late || timed == {})
    ensures Covered(Exec(late, Start<T>(), steps).value)
  {
    if steps == [] {
    } else {
      var before := steps[..|steps| - 1];
      CoveredRun(late, before, poppers, timed);
      Fifo(late, before);
      TimedRun(late, before, poppers, timed);
      CoveredStep(late, Exec(late, Start(), before).value, steps[|steps| - 1]);
    }
  }

  // One popping thread.

  /** Only p pops; while it sleeps every queued item has a notify that is still to come. */
  predicate Solo<T>(s: State<T>, p: nat) {
    && s.sleeping + s.woken + s.expired <= {p} && (s.holder.Checking? ==> s.holder.id == p)
    && (p in s.sleeping ==> |s.queue| <= |s.notifying| + if s.holder.Pushed? then 1 else 0)
  }

  lemma SoloPops<T>(late: bool, s: State<T>, step: Step<T>, p: nat)
    requires Apart(s) && Solo(s, p) && Next(late, s, step).Some? && (step.PopLock? ==> step.id == p)
    requires step.PopLock? || step.Check? || step.PushLock? || step.Push?
    ensures Solo(Next(late, s, step).value, p)
  {
  }

  lemma SoloUnlocks<T>(late: bool, s: State<T>, p: nat)
    requires Apart(s) && Solo(s, p) && Next(late, s, Unlock).Some?
    ensures Solo(Next(late, s, Unlock).value, p)
  {
    if s.holder.Pushed? {
      Grows(s.notifying, s.holder.id);
    }
  }

  lemma SoloWakes<T>(late: bool, s: State<T>, step: Step<T>, p: nat)
    requires Solo(s, p) && Next(late, s, step).Some?
    requires step.Relock? || step.Spurious? || step.Timeout? || step.LateTimeout?
    ensures Solo(Next(late, s, step).value, p)
  {
  }

  lemma SoloNotifies<T>(late: bool, s: State<T>, id: nat, target: nat, p: nat)
    requires Solo(s, p) && Next(late, s, Notify(id, target)).Some?
    ensures Solo(Next(late, s, Notify(id, target)).value, p)
  {
  }

  lemma SoloStep<T>(late: bool, s: State<T>, step: Step<T>, p: nat)
    requires Apart(s) && Solo(s, p) && Next(late, s, step).Some? && (step.PopLock? ==> step.id == p)
    ensures Solo(Next(late, s, step).value, p)
  {
    match step
    case Unlock => SoloUnlocks(late, s, p);
    case Notify(id, target) => SoloNotifies(late, s, id, target, p);
    case Relock(_) => SoloWakes(late, s, step, p);
    case Spurious(_) => SoloWakes(late, s, step, p);
    case Timeout(_) => SoloWakes(late, s, step, p);
    case LateTimeout(_) => SoloWakes(late, s, step, p);
    case _ => SoloPops(late, s, step, p);
  }

  lemma {:induction false} SoloRun<T>(late: bool, steps: seq<Step<T>>, timed: set<nat>, p: nat)
    requires Exec(late, Start(), steps).Some? && PopsBy(steps, {p}, timed)
    ensures Solo(Exec(late, Start<T>(), steps).value, p)
  {
    if steps == [] {
    } else {
      var before := steps[..|steps| - 1];
      SoloRun(late, before, timed, p);
      Fifo(late, before);
      SoloStep(late, Exec(late, Start(), before).value, steps[|steps| - 1], p);
    }
  }

  // Lost wake-ups.

  /** Items and sleepers, and nobody left to run: a lost wake-up. */
  predicate Stuck<T>(s: State<T>) {
    s.queue != [] && s.sleeping != {} && s.holder.Free? && s.woken == {} && s.expired == {} && s.notifying == {}
  }

  ghost predicate NeverStuck<T(!new)>(late: bool, poppers: set<nat>, timed: set<nat>) {
    forall steps: seq<Step<T>> :: Exec(late, Start(), steps).Some? && PopsBy(steps, poppers, timed) ==>
      !Stuck(Exec(late, Start(), steps).value)
  }

  lemma ExecNext<T>(late: bool, s: State<T>, steps: seq<Step<T>>, step: Step<T>)
    requires Exec(late, s, steps).Some?
    ensures Exec(late, s, steps + [step]) == Next(late, Exec(late, s, steps).value, step)
  {
    assert (steps + [step])[..|steps|] == steps;
  }

  /** Thread id asks for an item and falls asleep. */
  lemma Asleep<T>(before: seq<Step<T>>, s: State<T>, id: nat, timed: bool)
    requires Exec(true, Start(), before) == Some(s) && s.holder.Free? && s.queue == [] && Outside(s, id)
    ensures Exec(true, Start(), before + [PopLock(id, timed), Check])
         == Some(s.(sleeping := s.sleeping + {id}, timed := if timed then s.timed + {id} else s.timed - {id}))
  {
    ExecNext(true, Start(), before, PopLock(id, timed));
    ExecNext(true, Start(), before + [PopLock(id, timed)], Check);
    assert before + [PopLock(id, timed)] + [Check] == before + [PopLock(id, timed), Check];
  }

  lemma BothAsleep<T>(a: nat, b: nat)
    requires a != b
    ensures Exec(true, Start<T>(), [PopLock(a, true), Check, PopLock(b, false), Check])
         == Some(Start<T>().(sleeping := {a, b}, timed := {a}))
  {
    Asleep([], Start<T>(), a, true);
    var first: seq<Step<T>> := [PopLock(a, true), Check];
    assert [] + first == first && {} + {a} == {a};
    var s: State<T> := Start().(sleeping := {a}, timed := {a});
    Asleep(first, s, b, false);
    assert first + [PopLock(b, false), Check] == [PopLock(a, true), Check, PopLock(b, false), Check];
    assert {a} + {b} == {a, b} && {a} - {b} == {a};
  }

  /** Thread c pushes and notifies a; */
  lemma NotifyWasted<T>(before: seq<Step<T>>, s: State<T>, item: T, a: nat, b: nat, c: nat)
    requires Exec(true, Start(), before) == Some(s) && s == Start<T>().(sleeping := {a, b}, timed := {a})
    requires a != b && c != a && c != b
    ensures Exec(true, Start(), before + [PushLock(c, item), Push, Unlock, Notify(c, a)])
         == Some(s.(sleeping := {b}, woken := {a}, queue := [item], pushed := [item]))
  {
    var pushed := before + [PushLock(c, item), Push, Unlock];
    PushAlone(before, s, item, c);
    ExecNext(true, Start(), pushed, Notify(c, a));
    assert s.sleeping - {a} == {b} && {c} - {c} == {} && s.woken + {a} == {a};
    assert pushed + [Notify(c, a)] == before + [PushLock(c, item), Push, Unlock, Notify(c, a)];
  }

  lemma PushAlone<T>(before: seq<Step<T>>, s: State<T>, item: T, c: nat)
    requires Exec(true, Start(), before) == Some(s) && s.holder.Free? && Outside(s, c)
    requires s.queue == [] && s.pushed == [] && s.notifying == {}
    ensures Exec(true, Start(), before + [PushLock(c, item), Push, Unlock])
         == Some(s.(notifying := {c}, queue := [item], pushed := [item]))
  {
    var r1 := before + [PushLock(c, item)];
    ExecNext(true, Start(), before, PushLock(c, item));
    var r2 := r1 + [Push];
    ExecNext(true, Start(), r1, Push);
    ExecNext(true, Start(), r2, Unlock);
    assert s.notifying + {c} == {c} && s.queue + [item] == [item] && s.pushed + [item] == [item];
    assert r2 + [Unlock] == before + [PushLock(c, item), Push, Unlock];
  }

  /** a reports a time-out all the same and leaves. */
  lemma TimeoutLeaves<T>(before: seq<Step<T>>, s: State<T>, a: nat)
    requires Exec(true, Start(), before) == Some(s) && s.holder.Free? && s.woken == {a} && s.expired == {} && a in s.timed
    ensures Exec(true, Start(), before + [LateTimeout(a), Relock(a), Unlock]) == Some(s.(woken := {}))
  {
    var r1 := before + [LateTimeout(a)];
    ExecNext(true, Start(), before, LateTimeout(a));
    var r2 := r1 + [Relock(a)];
    ExecNext(true, Start(), r1, Relock(a));
    ExecNext(true, Start(), r2, Unlock);
    assert s.woken - {a} == {} && s.expired + {a} - {a} == {};
    assert r2 + [Unlock] == before + [LateTimeout(a), Relock(a), Unlock];
  }

  lemma LateTimeoutSticks<T(!new)>(poppers: set<nat>, timed: set<nat>, a: nat, b: nat, item: T)
    requires a in timed && a in poppers && b in poppers && a != b
    ensures !NeverStuck<T>(true, poppers, timed)
  {
    var c := a + b + 1;
    var asleep := [PopLock(a, true), Check, PopLock(b, false), Check];
    BothAsleep<T>(a, b);
    NotifyWasted(asleep, Start<T>().(sleeping := {a, b}, timed := {a}), item, a, b, c);
    var notified := asleep + [PushLock(c, item), Push, Unlock, Notify(c, a)];
    TimeoutLeaves(notified, Exec(true, Start(), notified).value, a);
    var run := notified + [LateTimeout(a), Relock(a), Unlock];
    assert PopsBy(run, poppers, timed) && Stuck(Exec(true, Start(), run).value);
  }

  lemma SafeThreads<T>(late: bool, steps: seq<Step<T>>, poppers: set<nat>, timed: set<nat>)
    requires Exec(late, Start(), steps).Some? && PopsBy(steps, poppers, timed)
    requires !late || timed == {} || |poppers| <= 1
    ensures !Stuck(Exec(late, Start(), steps).value)
  {
    var s := Exec(late, Start(), steps).value;
    if !late || timed == {} {
      CoveredRun(late, steps, poppers, timed);
      assert Covered(s);
    } else {
      var p := Only(poppers);
      SoloRun(late, steps, timed, p);
      assert Solo(s, p);
    }
  }

  lemma Only(poppers: set<nat>) returns (p: nat)
    requires |poppers| <= 1
    ensures poppers <= {p}
  {
    if poppers == {} {
      p := 0;
    } else {
      p :| p in poppers;
      assert |poppers - {p}| == |poppers| - 1;
    }
  }

  /** No wake-up is ever lost, whatever threads time out or wake up spuriously, exactly when no pop is
      timed or only one thread pops, or else the platform never reports a time-out to a thread that a
      notify_one has chosen. */
  lemma NoLostWakeupExactly<T(!new)>(late: bool, poppers: set<nat>, timed: set<nat>, item: T)
    requires timed <= poppers
    ensures NeverStuck<T>(late, poppers, timed) <==> !late || timed == {} || |poppers| <= 1
  {
    if !late || timed == {} || |poppers| <= 1 {
      forall steps: seq<Step<T>> | Exec(late, Start(), steps).Some? && PopsBy(steps, poppers, timed)
        ensures !Stuck(Exec(late, Start(), steps).value)
      {
        SafeThreads(late, steps, poppers, timed);
      }
    } else {
      var a :| a in timed;
      assert |poppers - {a}| == |poppers| - 1;
      var b :| b in poppers - {a};
      LateTimeoutSticks(poppers, timed, a, b, item);
    }
  }

  // Progress.

  /** A step of a thread that is already running: no new call, no spurious wake-up, no time-out. */
  predicate Internal<T>(step: Step<T>) {
    step.Check? || step.Unlock? || step.Relock? || step.Push? || step.Notify?
  }

  function Work<T>(s: State<T>): nat {
    4 * |s.notifying| + 3 * |s.woken| + 2 * |s.expired|
    + match s.holder
      case Free => 0
      case Leaving(_) => 1
      case Checking(_, _) => 2
      case Pushed(_) => 5
      case Pushing(_, _) => 6
  }

  lemma RelockWorks<T>(late: bool, s: State<T>, id: nat)
    requires Next(late, s, Relock(id)).Some?
    ensures Work(Next(late, s, Relock(id)).value) < Work(s)
  {
    Shrinks(s.woken, id);
    Shrinks(s.expired, id);
  }

  lemma NotifyWorks<T>(late: bool, s: State<T>, id: nat, target: nat)
    requires Next(late, s, Notify(id, target)).Some?
    ensures Work(Next(late, s, Notify(id, target)).value) < Work(s)
  {
    var t := Next(late, s, Notify(id, target)).value;
    Shrinks(s.notifying, id);
    assert |t.notifying| == |s.notifying| - 1;
    if s.sleeping == {} {
      assert t.woken == s.woken;
    } else {
      Grows(s.woken, target);
      assert |t.woken| <= |s.woken| + 1;
    }
  }

  lemma HolderWorks<T>(late: bool, s: State<T>, step: Step<T>)
    requires (step.Check? || step.Unlock? || step.Push?) && Next(late, s, step).Some?
    ensures Work(Next(late, s, step).value) < Work(s)
  {
    if s.holder.Pushed? {
      Grows(s.notifying, s.holder.id);
    }
  }

  lemma InternalStepWorks<T>(late: bool, s: State<T>, step: Step<T>)
    requires Internal(step) && Next(late, s, step).Some?
    ensures Work(Next(late, s, step).value) < Work(s)
  {
    match step
    case Relock(id) => RelockWorks(late, s, id);
    case Notify(id, target) => NotifyWorks(late, s, id, target);
    case _ => HolderWorks(late, s, step);
  }

  lemma WorkIsEnabled<T>(late: bool, s: State<T>) returns (step: Step<T>)
    requires Work(s) > 0
    ensures Internal(step) && Next(late, s, step).Some?
  {
    if s.holder.Checking? {
      step := Check;
    } else if s.holder.Pushing? {
      step := Push;
    } else if !s.holder.Free? {
      step := Unlock;
    } else if s.woken != {} {
      var id :| id in s.woken;
      step := Relock(id);
    } else if s.expired != {} {
      var id :| id in s.expired;
      step := Relock(id);
    } else {
      var id :| id in s.notifying;
      var target :| target in s.sleeping || s.sleeping == {};
      step := Notify(id, target);
    }
  }

  lemma NothingLeft<T>(s: State<T>)
    requires Work(s) == 0 && !Stuck(s)
    ensures s.sleeping == {} || s.queue == []
  {
    assert |s.notifying| == 0 && |s.woken| == 0 && |s.expired| == 0;
  }

  lemma WorkOn<T>(late: bool, steps: seq<Step<T>>, s: State<T>) returns (step: Step<T>, t: State<T>)
    requires Exec(late, Start(), steps) == Some(s) && Work(s) > 0
    ensures Internal(step) && Exec(late, Start(), steps + [step]) == Some(t) && Work(t) < Work(s)
  {
    step := WorkIsEnabled(late, s);
    t := Next(late, s, step).value;
    InternalStepWorks(late, s, step);
    ExecNext(late, Start(), steps, step);
  }

  /** From every reachable state the running threads finish by themselves within Work(s) steps, and
      then, where no wake-up is lost, nobody sleeps beside a queued item. */
  lemma {:induction false} Settles<T>(late: bool, poppers: set<nat>, timed: set<nat>, steps: seq<Step<T>>, s: State<T>)
    returns (all: seq<Step<T>>, end: State<T>)
    requires Exec(late, Start(), steps) == Some(s) && PopsBy(steps, poppers, timed)
    requires !late || timed == {} || |poppers| <= 1
    ensures steps <= all && |all| <= |steps| + Work(s) && forall i :: |steps| <= i < |all| ==> Internal(all[i])
    ensures Exec(late, Start(), all) == Some(end)
    ensures Work(end) == 0 && (end.sleeping == {} || end.queue == [])
    decreases Work(s)
  {
    if Work(s) == 0 {
      all, end := steps, s;
      SafeThreads(late, steps, poppers, timed);
      NothingLeft(s);
    } else {
      var step, t := WorkOn(late, steps, s);
      all, end := Settles(late, poppers, timed, steps + [step], t);
    }
  }
}
