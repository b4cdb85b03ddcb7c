/** db/env.h:308-344: the background work queue, as interleaved atomic steps of any number of
    Schedule callers and of the threads they launch. */
module WorkQueues {

  /** A function and its argument: the Schedule calls it makes, one after the other, before it
      returns. Most items make none. */
  datatype Item = Item(id: int, calls: seq<Item>)

  /** A caller of Schedule, env.h:330-341, between two of its steps. */
  datatype CallerAt =
    | Idle
    | Entering(item: Item)       // about to lock the mutex
    | Inside(item: Item)         // locked, about to push
    | Pushed                     // pushed, about to post
    | Posted                     // posted, about to unlock
    | Outside                    // unlocked, about to read the flag
    | SawUnstarted               // read it as false, about to set it
    | Launching                  // set it, about to start a thread

  /** A background thread, env.h:316-325, between two of its steps. */
  datatype ThreadAt =
    | Waiting                    // about to wait on the semaphore
    | Woken                      // past it, about to lock the mutex
    | Locked                     // about to read the front of the queue
    | Taken(item: Item)          // has copied the front, about to pop
    | Running(item: Item, rest: seq<Item>)    // popped, in the item's function, with these calls still to make
    | Returned                   // the function has returned, about to unlock

  datatype Holder = Free | Caller(c: nat) | Thread(t: nat)

  datatype State = State(
    queue: seq<Item>,
    semaphore: nat,
    started: bool,
    mutex: Holder,
    outer: nat,                  // how many callers are not background threads
    callers: seq<CallerAt>,      // these, then one for each background thread
    threads: seq<ThreadAt>,
    broken: bool,                // front() or pop() met an empty queue
    pushed: seq<Item>,           // all items ever pushed, in order
    finished: seq<Item>)         // all items whose function has returned, in order

  datatype Step =
    | Call(c: nat, item: Item) | Lock(c: nat) | Push(c: nat) | Post(c: nat) | Unlock(c: nat)
    | ReadFlag(c: nat) | SetFlag(c: nat) | Launch(c: nat)
    | Wait(t: nat) | LockThread(t: nat) | Front(t: nat) | Pop(t: nat) | CallInside(t: nat) | Return(t: nat)
    | UnlockThread(t: nat)

  /** The semaphore starts at 0; env.h never initialises it. */
  function Init(callers: nat): State
  {
    State([], 0, false, Free, callers, seq(callers, _ => Idle), [], false, [], [])
  }

  predicate IsThreadStep(step: Step)
  {
    step.Wait? || step.LockThread? || step.Front? || step.Pop? || step.CallInside? || step.Return? || step.UnlockThread?
  }

  /** The caller that thread `t` is while its item's function calls Schedule. */
  function Slot(s: State, t: nat): nat { s.outer + t }

  predicate SlotIdle(s: State, t: nat)
  {
    Slot(s, t) < |s.callers| && s.callers[Slot(s, t)].Idle?
  }

  predicate Enabled(s: State, step: Step)
  {
    if IsThreadStep(step) then step.t < |s.threads| && ThreadEnabled(s, step, s.threads[step.t])
    else step.c < |s.callers| && CallerEnabled(s, step, s.callers[step.c])
  }

  /** The mutex is not recursive: its holder waits like anyone else. */
  predicate CallerEnabled(s: State, step: Step, at: CallerAt)
  {
    match step
    case Call(c, _) => at.Idle? && c < s.outer
    case Lock(_) => at.Entering? && s.mutex.Free?
    case Push(_) => at.Inside?
    case Post(_) => at.Pushed?
    case Unlock(_) => at.Posted?
    case ReadFlag(_) => at.Outside?
    case SetFlag(_) => at.SawUnstarted?
    case Launch(_) => at.Launching?
    case _ => false
  }

  /** A function returns once it has made its calls and the last of them has returned. */
  predicate ThreadEnabled(s: State, step: Step, at: ThreadAt)
  {
    match step
    case Wait(_) => at.Waiting? && s.semaphore > 0
    case LockThread(_) => at.Woken? && s.mutex.Free?
    case Front(_) => at.Locked?
    case Pop(_) => at.Taken?
    case CallInside(t) => at.Running? && at.rest != [] && SlotIdle(s, t)
    case Return(t) => at.Running? && at.rest == [] && SlotIdle(s, t)
    case UnlockThread(_) => at.Returned?
    case _ => false
  }

  function Apply(s: State, step: Step): State
    requires Enabled(s, step)
  {
    if IsThreadStep(step) then ApplyThread(s, step) else ApplyCaller(s, step)
  }

  function ApplyCaller(s: State, step: Step): State
    requires Enabled(s, step) && !IsThreadStep(step)
  {
    var c := step.c;
    match step
    case Call(_, item) => s.(callers := s.callers[c := Entering(item)])
    case Lock(_) => s.(callers := s.callers[c := Inside(s.callers[c].item)], mutex := Caller(c))
    case Push(_) =>
      var item := s.callers[c].item;
      s.(callers := s.callers[c := Pushed], queue := s.queue + [item], pushed := s.pushed + [item])
    case Post(_) => s.(callers := s.callers[c := Posted], semaphore := s.semaphore + 1)
    case Unlock(_) => s.(callers := s.callers[c := Outside], mutex := Free)
    case ReadFlag(_) => s.(callers := s.callers[c := if s.started then Idle else SawUnstarted])
    case SetFlag(_) => s.(callers := s.callers[c := Launching], started := true)
    case Launch(_) => s.(callers := s.callers[c := Idle] + [Idle], threads := s.threads + [Waiting])
  }

  function ApplyThread(s: State, step: Step): State
    requires Enabled(s, step) && IsThreadStep(step)
  {
    var t := step.t;
    match step
    case Wait(_) => s.(threads := s.threads[t := Woken], semaphore := s.semaphore - 1)
    case LockThread(_) => s.(threads := s.threads[t := Locked], mutex := Thread(t))
    case Front(_) => if s.queue == [] then s.(broken := true) else s.(threads := s.threads[t := Taken(s.queue[0])])
    case Pop(_) =>
      var item := s.threads[t].item;
      if s.queue == [] then s.(broken := true)
      else s.(threads := s.threads[t := Running(item, item.calls)], queue := s.queue[1..])
    case CallInside(_) =>
      var at := s.threads[t];
      s.(threads := s.threads[t := Running(at.item, at.rest[1..])],
         callers := s.callers[Slot(s, t) := Entering(at.rest[0])])
    case Return(_) => s.(threads := s.threads[t := Returned], finished := s.finished + [s.threads[t].item])
    case UnlockThread(_) => s.(threads := s.threads[t := Waiting], mutex := Free)
  }

  /** A run of any length and interleaving. */
  predicate CanRun(s: State, steps: seq<Step>)
    decreases |steps|
  {
    steps == [] || (Enabled(s, steps[0]) && CanRun(Apply(s, steps[0]), steps[1..]))
  }

  function Run(s: State, steps: seq<Step>): State
    requires CanRun(s, steps)
    decreases |steps|
  {
    if steps == [] then s else Run(Apply(s, steps[0]), steps[1..])
  }

  // ----- the invariant

  predicate CallerHolds(at: CallerAt) { at.Inside? || at.Pushed? || at.Posted? }

  predicate ThreadHolds(at: ThreadAt) { at.Locked? || at.Taken? || at.Running? || at.Returned? }

  /** Whoever is inside the critical section holds the mutex, and holds it alone. */
  predicate Exclusive(s: State)
  {
    && (forall c :: 0 <= c < |s.callers| ==> (CallerHolds(s.callers[c]) <==> s.mutex == Caller(c)))
    && (forall t :: 0 <= t < |s.threads| ==> (ThreadHolds(s.threads[t]) <==> s.mutex == Thread(t)))
    && (s.mutex.Caller? ==> s.mutex.c < |s.callers|)
    && (s.mutex.Thread? ==> s.mutex.t < |s.threads|)
  }

  function Sum<T>(q: seq<T>, f: T -> nat): nat
  {
    if q == [] then 0 else Sum(q[..|q| - 1], f) + f(q[|q| - 1])
  }

  /** Owed by a thread that has been woken and has not yet popped. */
  function Debt(at: ThreadAt): nat
  {
    if at.Woken? || at.Locked? || at.Taken? then 1 else 0
  }

  /** 1 if the mutex holder has pushed and not yet posted. */
  function Unposted(s: State): nat
    requires Exclusive(s)
  {
    if s.mutex.Caller? && s.callers[s.mutex.c].Pushed? then 1 else 0
  }

  predicate Balanced(s: State)
    requires Exclusive(s)
  {
    |s.queue| == s.semaphore + Sum(s.threads, Debt) + Unposted(s)
  }

  /** The item being run, if any. */
  function RunningItems(s: State): seq<Item>
    requires Exclusive(s)
  {
    if s.mutex.Thread? && s.threads[s.mutex.t].Running? then [s.threads[s.mutex.t].item] else []
  }

  predicate InOrder(s: State)
    requires Exclusive(s)
  {
    && s.finished + RunningItems(s) + s.queue == s.pushed
    && (forall t :: 0 <= t < |s.threads| && s.threads[t].Taken? ==> s.queue != [] && s.threads[t].item == s.queue[0])
  }

  /** An item that makes no calls. */
  predicate Plain(item: Item) { item.calls == [] }

  predicate AllPlain(items: seq<Item>)
  {
    forall i {:trigger items[i]} :: 0 <= i < |items| ==> Plain(items[i])
  }

  /** A thread whose item has called Schedule has got no further than the mutex. */
  predicate NestedAt(s: State, t: nat)
    requires t < |s.threads| && Slot(s, t) < |s.callers|
  {
    var own, at := s.callers[Slot(s, t)], s.threads[t];
    && (own.Idle? || (own.Entering? && at.Running?))
    && (at.Running? ==> if own.Idle? then at.rest == at.item.calls else !Plain(at.item) && |at.rest| < |at.item.calls|)
  }

  predicate Nested(s: State)
  {
    && |s.callers| == s.outer + |s.threads|
    && (forall t :: 0 <= t < |s.threads| ==> NestedAt(s, t))
    && AllPlain(s.finished)
  }

  /** This caller has pushed, and will see to it that a thread gets started. */
  predicate WillStart(at: CallerAt) { at.Pushed? || at.Posted? || at.Outside? || at.SawUnstarted? }

  /** Nothing pushed is forgotten: there is a thread, or some caller is still on the way to start one. */
  predicate Attended(s: State)
  {
    && (s.pushed != [] && !s.started ==> exists c :: 0 <= c < |s.callers| && WillStart(s.callers[c]))
    && (s.started && s.threads == [] ==> exists c :: 0 <= c < |s.callers| && s.callers[c].Launching?)
  }

  predicate Safe(s: State)
  {
    !s.broken && Exclusive(s) && Balanced(s) && InOrder(s)
  }

  predicate Inv(s: State)
  {
    Safe(s) && Attended(s) && Nested(s)
  }

  // ----- counting

  lemma {:induction false} SumUpdate<T>(q: seq<T>, f: T -> nat, i: nat, x: T)
    requires i < |q|
    ensures Sum(q[i := x], f) == Sum(q, f) - f(q[i]) + f(x)
  {
    var n := |q| - 1;
    if i < n {
      SumUpdate(q[..n], f, i, x);
      assert q[i := x][..n] == q[..n][i := x];
    } else {
      assert q[i := x][..n] == q[..n];
    }
  }

  lemma SumAppend<T>(q: seq<T>, f: T -> nat, x: T)
    ensures Sum(q + [x], f) == Sum(q, f) + f(x)
  {
    assert (q + [x])[..|q|] == q;
  }

  lemma {:induction false} SumAtLeast<T>(q: seq<T>, f: T -> nat, i: nat)
    requires i < |q|
    ensures Sum(q, f) >= f(q[i])
  {
    var n := |q| - 1;
    if i < n {
      SumAtLeast(q[..n], f, i);
    }
  }

  lemma {:induction false} SumZero<T>(q: seq<T>, f: T -> nat)
    requires forall i :: 0 <= i < |q| ==> f(q[i]) == 0
    ensures Sum(q, f) == 0
  {
    if q != [] {
      SumZero(q[..|q| - 1], f);
    }
  }

  // ----- every step keeps it

  lemma InitInv(callers: nat)
    ensures Inv(Init(callers))
  {}

  lemma ThreadStepExclusive(s: State, step: Step)
    requires Exclusive(s) && Enabled(s, step) && IsThreadStep(step)
    ensures Exclusive(Apply(s, step))
  {}

  lemma ThreadStepSafe(s: State, step: Step)
    requires Safe(s) && Enabled(s, step) && IsThreadStep(step)
    ensures Safe(Apply(s, step))
  {
    hide Sum;
    var t := step.t;
    var s' := Apply(s, step);
    ThreadStepExclusive(s, step);
    SumAtLeast(s.threads, Debt, t);
    SumUpdate(s.threads, Debt, t, s'.threads[t]);
    assert s'.threads == s.threads[t := s'.threads[t]];
  }

  lemma CallerStepExclusive(s: State, step: Step)
    requires Exclusive(s) && Enabled(s, step) && !IsThreadStep(step)
    ensures Exclusive(Apply(s, step))
  {}

  lemma CallerStepSafe(s: State, step: Step)
    requires Safe(s) && Enabled(s, step) && !IsThreadStep(step)
    ensures Safe(Apply(s, step))
  {
    hide Sum;
    CallerStepExclusive(s, step);
    SumAppend(s.threads, Debt, Waiting);
    assert CallerHolds(s.callers[step.c]) <==> s.mutex == Caller(step.c);
    assert Balanced(Apply(s, step));
    assert InOrder(Apply(s, step));
  }

  lemma StepAttended(s: State, step: Step)
    requires Attended(s) && Enabled(s, step)
    ensures Attended(Apply(s, step))
  {
    var s' := Apply(s, step);
    if s'.pushed != [] && !s'.started {
      if step.Push? {
        assert WillStart(s'.callers[step.c]);
      } else {
        var c :| 0 <= c < |s.callers| && WillStart(s.callers[c]);
        assert WillStart(s'.callers[c]);
      }
    }
    if s'.started && s'.threads == [] {
      if step.SetFlag? {
        assert s'.callers[step.c].Launching?;
      } else {
        var c :| 0 <= c < |s.callers| && s.callers[c].Launching?;
        assert s'.callers[c].Launching?;
      }
    }
  }

  /** A background thread inside an item holds the mutex, so its own call cannot take it. */
  lemma InnerCallerWaits(s: State, t: nat, step: Step)
    requires Exclusive(s) && Nested(s) && t < |s.threads| && !IsThreadStep(step) && step.c == Slot(s, t)
    ensures !Enabled(s, step)
  {
    assert NestedAt(s, t);
    assert ThreadHolds(s.threads[t]) <==> s.mutex == Thread(t);
  }

  lemma StepNested(s: State, step: Step)
    requires Exclusive(s) && Nested(s) && Enabled(s, step)
    ensures Nested(Apply(s, step))
  {
    hide Exclusive;
    var s' := Apply(s, step);
    if IsThreadStep(step) {
      assert NestedAt(s, step.t);
    } else if step.c >= s.outer {
      InnerCallerWaits(s, step.c - s.outer, step);
    }
    forall t | 0 <= t < |s'.threads| ensures Slot(s', t) < |s'.callers| && NestedAt(s', t) {
      if t < |s.threads| {
        assert NestedAt(s, t);
      }
    }
  }

  lemma StepInv(s: State, step: Step)
    requires Inv(s) && Enabled(s, step)
    ensures Inv(Apply(s, step))
  {
    hide Attended, Nested, Apply, Enabled, Balanced, InOrder, Exclusive;
    if IsThreadStep(step) {
      ThreadStepSafe(s, step);
    } else {
      CallerStepSafe(s, step);
    }
    StepAttended(s, step);
    StepNested(s, step);
  }

  lemma {:induction false} RunInv(s: State, steps: seq<Step>)
    requires Inv(s) && CanRun(s, steps)
    ensures Inv(Run(s, steps))
    decreases |steps|
  {
    hide Inv, Apply, Enabled;
    if steps != [] {
      StepInv(s, steps[0]);
      RunInv(Apply(s, steps[0]), steps[1..]);
    }
  }

  // ----- what that means

  /** Any number of callers, any number of threads, any interleaving: front() and pop() never meet
      an empty queue, the semaphore accounts for every item, items finish in the order pushed and
      one at a time. */
  lemma AllRuns(callers: nat, steps: seq<Step>)
    requires CanRun(Init(callers), steps)
    ensures var s := Run(Init(callers), steps);
            && !s.broken && Exclusive(s)
            && |s.queue| == s.semaphore + Sum(s.threads, Debt) + Unposted(s)
            && s.finished + RunningItems(s) + s.queue == s.pushed
            && s.finished <= s.pushed
    ensures var s := Run(Init(callers), steps);
            forall t, u ::
              0 <= t < |s.threads| && 0 <= u < |s.threads| && s.threads[t].Running? && s.threads[u].Running? ==>
              t == u
  {
    hide Run, CanRun, Sum;
    InitInv(callers);
    RunInv(Init(callers), steps);
    var s := Run(Init(callers), steps);
    assert s.finished + (RunningItems(s) + s.queue) == s.pushed;
  }

  /** Inside Schedule a caller can always move, but for one at a mutex that is taken. */
  lemma CallerMoves(s: State, c: nat)
    requires Inv(s) && c < s.outer
    ensures (exists step :: Enabled(s, step) && !IsThreadStep(step) && !step.Call? && step.c == c)
            <==> s.callers[c] != Idle && (s.callers[c].Entering? ==> s.mutex == Free)
  {
    var step := match s.callers[c]
      case Idle => Lock(c)
      case Entering(_) => Lock(c)
      case Inside(_) => Push(c)
      case Pushed => Post(c)
      case Posted => Unlock(c)
      case Outside => ReadFlag(c)
      case SawUnstarted => SetFlag(c)
      case Launching => Launch(c);
    assert Enabled(s, step) <==> s.callers[c] != Idle && (s.callers[c].Entering? ==> s.mutex == Free);
  }

  /** A thread can always move, but for one at a semaphore that is 0, at a mutex that is taken, or in an item whose
      call has not returned. */
  lemma ThreadMoves(s: State, t: nat)
    requires Inv(s) && t < |s.threads|
    ensures (exists step :: Enabled(s, step) && IsThreadStep(step) && step.t == t)
            <==> (match s.threads[t]
                  case Waiting => s.semaphore > 0
                  case Woken => s.mutex == Free
                  case Running(_, _) => s.callers[s.outer + t] == Idle
                  case _ => true)
  {
    var step := match s.threads[t]
      case Waiting => Wait(t)
      case Woken => LockThread(t)
      case Locked => Front(t)
      case Taken(_) => Pop(t)
      case Running(_, rest) => if rest == [] then Return(t) else CallInside(t)
      case Returned => UnlockThread(t);
    assert NestedAt(s, t);
    assert (exists step :: Enabled(s, step) && IsThreadStep(step) && step.t == t) ==> Enabled(s, step);
  }

  // ----- an item that calls Schedule

  /** Thread `t` runs an item that calls Schedule, or is about to. */
  predicate Scheduling(s: State, t: nat)
  {
    t < |s.threads| && s.threads[t].Running? && !Plain(s.threads[t].item)
  }

  /** It is waiting for the mutex it holds. */
  predicate Stuck(s: State, t: nat)
  {
    t < |s.threads| && s.threads[t].Running? && Slot(s, t) < |s.callers| && s.callers[Slot(s, t)].Entering?
  }

  lemma SchedulingStep(s: State, t: nat, step: Step)
    requires Inv(s) && Scheduling(s, t) && Enabled(s, step)
    ensures var s' := Apply(s, step);
            && Scheduling(s', t) && s'.threads[t].item == s.threads[t].item && s'.mutex == s.mutex == Thread(t)
            && s'.finished == s.finished && s'.queue == s.queue && s'.pushed == s.pushed
            && (Stuck(s, t) ==> Stuck(s', t))
  {
    assert NestedAt(s, t);
    assert ThreadHolds(s.threads[t]) <==> s.mutex == Thread(t);
    if IsThreadStep(step) {
      assert ThreadHolds(s.threads[step.t]) <==> s.mutex == Thread(step.t);
    } else {
      assert CallerHolds(s.callers[step.c]) <==> s.mutex == Caller(step.c);
    }
  }

  /** While any item runs, nobody can push. */
  lemma RunningBlocksPush(s: State, t: nat, c: nat)
    requires Inv(s) && t < |s.threads| && s.threads[t].Running?
    ensures !Enabled(s, Lock(c)) && !Enabled(s, Push(c))
  {
    assert ThreadHolds(s.threads[t]);
    assert s.mutex == Thread(t);
  }

  /** From the moment such an item runs, in every continuation whatever: it never returns, the mutex
      stays taken, nothing more is pushed, taken or finished; and once it has called Schedule the call
      never gets any further. */
  lemma {:induction false} SchedulingNeverReturns(s: State, t: nat, steps: seq<Step>)
    requires Inv(s) && Scheduling(s, t) && CanRun(s, steps)
    ensures var r := Run(s, steps);
            && Scheduling(r, t) && r.threads[t].item == s.threads[t].item && r.mutex == Thread(t)
            && r.finished == s.finished && r.queue == s.queue && r.pushed == s.pushed
            && (Stuck(s, t) ==> Stuck(r, t))
    decreases |steps|
  {
    hide Apply, Enabled, Safe, Attended, Nested, Stuck;
    if steps == [] {
      assert s.mutex == Thread(t) by { RunnerHolds(s, t); }
    } else {
      SchedulingStep(s, t, steps[0]);
      StepInv(s, steps[0]);
      SchedulingNeverReturns(Apply(s, steps[0]), t, steps[1..]);
    }
  }

  lemma RunnerHolds(s: State, t: nat)
    requires Inv(s) && Scheduling(s, t)
    ensures s.mutex == Thread(t)
  {
    assert ThreadHolds(s.threads[t]);
  }

  // ----- everything else gets done

  /** Nobody but background threads is inside Schedule. */
  predicate Quiet(s: State)
  {
    forall c :: 0 <= c < s.outer && c < |s.callers| ==> s.callers[c].Idle?
  }

  /** Steps a thread still has to make before it waits again, or for ever. */
  function StepsLeft(at: ThreadAt): nat
  {
    match at
    case Waiting => 0
    case Woken => 5
    case Locked => 4
    case Taken(_) => 3
    case Running(item, rest) => if rest == item.calls then 2 else 1
    case Returned => 1
  }

  /** ... and a caller before it is out of Schedule, counting six for the thread that its post lets through. */
  function CallerStepsLeft(at: CallerAt): nat
  {
    match at
    case Idle => 0
    case Entering(_) => 13
    case Inside(_) => 12
    case Pushed => 11
    case Posted => 4
    case Outside => 3
    case SawUnstarted => 2
    case Launching => 1
  }

  /** The callers that are not background threads. */
  function OuterCallers(s: State): seq<CallerAt>
  {
    if s.outer <= |s.callers| then s.callers[..s.outer] else s.callers
  }

  /** Steps left when there are no new calls: at most six for each semaphore count. */
  function Work(s: State): nat
  {
    6 * s.semaphore + Sum(s.threads, StepsLeft) + Sum(OuterCallers(s), CallerStepsLeft)
  }

  /** A caller on the way to push an item that calls Schedule. */
  predicate BringsCall(at: CallerAt)
  {
    (at.Entering? || at.Inside?) && !Plain(at.item)
  }

  predicate NoneBringsCall(s: State)
  {
    forall c {:trigger OuterCallers(s)[c]} :: 0 <= c < |OuterCallers(s)| ==> !BringsCall(OuterCallers(s)[c])
  }

  /** No item pushed calls Schedule, nor does any about to be pushed. */
  predicate Harmless(s: State) { AllPlain(s.pushed) && NoneBringsCall(s) }

  lemma ThreadStepWorks(s: State, step: Step)
    requires Inv(s) && Enabled(s, step) && IsThreadStep(step)
    ensures var s' := Apply(s, step);
            && Work(s') < Work(s) && OuterCallers(s') == OuterCallers(s) && s'.pushed == s.pushed
  {
    hide Sum, Balanced, InOrder, Attended;
    var t := step.t;
    var s' := Apply(s, step);
    ThreadStepSafe(s, step);
    assert NestedAt(s, t);
    SumUpdate(s.threads, StepsLeft, t, s'.threads[t]);
    assert s'.threads == s.threads[t := s'.threads[t]];
    assert OuterCallers(s') == OuterCallers(s);
  }

  lemma CallerStepWorks(s: State, step: Step)
    requires Inv(s) && Enabled(s, step) && !IsThreadStep(step) && !step.Call?
    ensures Work(Apply(s, step)) < Work(s) && (Harmless(Apply(s, step)) <==> Harmless(s))
  {
    hide Sum, Exclusive, Balanced, InOrder, Attended;
    var s', c := Apply(s, step), step.c;
    if c >= s.outer {
      InnerCallerWaits(s, c - s.outer, step);
    }
    var before, after := OuterCallers(s), OuterCallers(s');
    SumUpdate(before, CallerStepsLeft, c, after[c]);
    assert after == before[c := after[c]];
    SumAppend(s.threads, StepsLeft, Waiting);
    CallerStepHarmless(s, step);
  }

  lemma CallerStepHarmless(s: State, step: Step)
    requires Nested(s) && Enabled(s, step) && !IsThreadStep(step) && !step.Call? && step.c < s.outer
    ensures Harmless(Apply(s, step)) <==> Harmless(s)
  {
    var s', c := Apply(s, step), step.c;
    var before, after := OuterCallers(s), OuterCallers(s');
    assert after == before[c := after[c]];
    if step.Push? {
      var item := s.callers[c].item;
      assert BringsCall(before[c]) <==> !Plain(item);
      assert s'.pushed == s.pushed + [item] && s'.pushed[|s.pushed|] == item;
      assert forall i :: 0 <= i < |s.pushed| ==> s'.pushed[i] == s.pushed[i];
    } else {
      assert BringsCall(after[c]) <==> BringsCall(before[c]);
    }
    forall k | 0 <= k < |before| && k != c ensures after[k] == before[k] {}
  }

  lemma StepWorks(s: State, step: Step)
    requires Inv(s) && Enabled(s, step) && !step.Call?
    ensures Work(Apply(s, step)) < Work(s) && (Harmless(Apply(s, step)) <==> Harmless(s))
  {
    hide Inv, Enabled, Apply, Work;
    if IsThreadStep(step) {
      ThreadStepWorks(s, step);
    } else {
      CallerStepWorks(s, step);
    }
  }

  /** The thread that holds the mutex can move, unless it waits for itself. */
  lemma HolderMoves(s: State) returns (step: Step)
    requires Inv(s) && s.mutex.Thread? && !Stuck(s, s.mutex.t)
    ensures Enabled(s, step) && IsThreadStep(step)
  {
    hide Balanced, InOrder, Attended;
    var t := s.mutex.t;
    assert ThreadHolds(s.threads[t]) && NestedAt(s, t);
    step := match s.threads[t]
      case Locked => Front(t)
      case Taken(_) => Pop(t)
      case Running(_, rest) => if rest == [] then Return(t) else CallInside(t)
      case _ => UnlockThread(t);
  }

  lemma OuterHolder(s: State)
    requires Inv(s) && s.mutex.Caller?
    ensures s.mutex.c < s.outer && CallerHolds(s.callers[s.mutex.c])
  {
    hide Balanced, InOrder, Attended;
    assert CallerHolds(s.callers[s.mutex.c]);
    forall c {:trigger s.callers[c]} | s.outer <= c < |s.callers| ensures s.mutex.c != c {
      assert NestedAt(s, c - s.outer);
    }
  }

  /** While an item is unfinished some background thread can move, unless one waits for itself: no
      other deadlock, and no lost wakeup. */
  lemma SomeThreadMoves(s: State) returns (step: Step)
    requires Inv(s) && Quiet(s) && s.finished != s.pushed && forall t :: 0 <= t < |s.threads| ==> !Stuck(s, t)
    ensures Enabled(s, step) && IsThreadStep(step)
  {
    if s.mutex.Thread? {
      step := HolderMoves(s);
    } else {
      if s.mutex.Caller? {
        OuterHolder(s);
      }
      assert s.finished + [] + s.queue == s.finished + s.queue;
      assert s.queue != [];
      if t :| 0 <= t < |s.threads| && s.threads[t].Woken? {
        step := LockThread(t);
      } else {
        forall t | 0 <= t < |s.threads| ensures s.threads[t].Waiting? {
          assert !ThreadHolds(s.threads[t]);
        }
        SumZero(s.threads, Debt);
        step := Wait(0);
      }
    }
  }

  /** Only plain items finish, so those pushed are all plain exactly when those not finished are. */
  lemma PlainAccount(s: State)
    requires Inv(s)
    ensures Exclusive(s) && AllPlain(s.finished) && (AllPlain(s.pushed) <==> AllPlain(RunningItems(s) + s.queue))
  {
    var rest := RunningItems(s) + s.queue;
    assert s.finished + rest == s.pushed;
    if AllPlain(s.pushed) {
      forall i {:trigger rest[i]} | 0 <= i < |rest| ensures Plain(rest[i]) {
        assert s.pushed[|s.finished| + i] == rest[i];
      }
    }
  }

  lemma NoneStuck(s: State)
    requires Inv(s) && AllPlain(s.pushed)
    ensures forall t :: 0 <= t < |s.threads| ==> !Stuck(s, t)
  {
    PlainAccount(s);
    forall t | 0 <= t < |s.threads| ensures !Stuck(s, t) {
      assert NestedAt(s, t);
      assert ThreadHolds(s.threads[t]) <==> s.mutex == Thread(t);
      if s.threads[t].Running? {
        assert (RunningItems(s) + s.queue)[0] == s.threads[t].item;
      }
    }
  }

  /** In every reachable state something other than a new call can happen, unless everyone is done or
      an item waits for itself. */
  lemma SomethingMoves(s: State) returns (step: Step)
    requires Inv(s) && forall t :: 0 <= t < |s.threads| ==> !Stuck(s, t)
    requires !(Quiet(s) && s.finished == s.pushed && forall t :: 0 <= t < |s.threads| ==> s.threads[t].Waiting?)
    ensures Enabled(s, step) && !step.Call?
  {
    if s.mutex.Thread? {
      step := HolderMoves(s);
    } else if s.mutex.Caller? {
      OuterHolder(s);
      var c := s.mutex.c;
      step := match s.callers[c] case Inside(_) => Push(c) case Pushed => Post(c) case _ => Unlock(c);
    } else if c: nat :| c < s.outer && c < |s.callers| && !s.callers[c].Idle? {
      assert !CallerHolds(s.callers[c]);
      step := match s.callers[c]
        case Entering(_) => Lock(c)
        case Outside => ReadFlag(c)
        case SawUnstarted => SetFlag(c)
        case _ => Launch(c);
    } else if s.finished != s.pushed {
      step := SomeThreadMoves(s);
    } else {
      var t :| 0 <= t < |s.threads| && !s.threads[t].Waiting?;
      assert !ThreadHolds(s.threads[t]);
      step := LockThread(t);
    }
  }

  /** From any reachable state, every run without new calls is finite, and when nothing but new calls is left it
      has finished everything pushed, in order, if and only if no item queued, running or about to be pushed
      calls Schedule. */
  lemma Drains(s: State, steps: seq<Step>)
    requires Inv(s) && CanRun(s, steps) && NoCalls(steps)
    ensures |steps| <= Work(s)
    ensures (forall step :: Enabled(Run(s, steps), step) ==> step.Call?) ==>
              (Run(s, steps).finished == Run(s, steps).pushed <==>
               AllPlain(RunningItems(s) + s.queue) && NoneBringsCall(s))
  {
    hide Safe, Attended, Nested, Enabled, Work, Run, CanRun, NoneBringsCall;
    RunWorks(s, steps);
    PlainAccount(s);
    if forall step :: Enabled(Run(s, steps), step) ==> step.Call? {
      Drained(Run(s, steps));
    }
  }

  predicate NoCalls(steps: seq<Step>)
  {
    forall i {:trigger steps[i]} :: 0 <= i < |steps| ==> !steps[i].Call?
  }

  lemma {:induction false} RunWorks(s: State, steps: seq<Step>)
    requires Inv(s) && CanRun(s, steps) && NoCalls(steps)
    ensures |steps| <= Work(s)
    ensures Inv(Run(s, steps)) && (Harmless(Run(s, steps)) <==> Harmless(s))
    decreases |steps|
  {
    hide Inv, Apply, Enabled, Work, Harmless;
    if steps != [] {
      StepWorks(s, steps[0]);
      StepInv(s, steps[0]);
      RunWorks(Apply(s, steps[0]), steps[1..]);
    }
  }

  lemma Drained(s: State)
    requires Inv(s) && forall step :: Enabled(s, step) ==> step.Call?
    ensures s.finished == s.pushed <==> Harmless(s)
  {
    hide Attended, Enabled, Balanced;
    PlainAccount(s);
    if s.finished == s.pushed {
      NobodyRuns(s);
    }
    if Harmless(s) {
      NoneStuck(s);
    }
    if (s.finished == s.pushed || Harmless(s))
       && !(Quiet(s) && s.finished == s.pushed && forall t :: 0 <= t < |s.threads| ==> s.threads[t].Waiting?) {
      var step := SomethingMoves(s);
    }
  }

  lemma NobodyRuns(s: State)
    requires Inv(s) && s.finished == s.pushed
    ensures forall t :: 0 <= t < |s.threads| ==> !s.threads[t].Running?
  {
    forall t | 0 <= t < |s.threads| ensures !s.threads[t].Running? {
      assert ThreadHolds(s.threads[t]) <==> s.mutex == Thread(t);
      assert |s.finished| + |RunningItems(s)| + |s.queue| == |s.pushed|;
    }
  }

  // ----- what is pushed is what was scheduled

  function Brought(at: CallerAt): seq<Item>
  {
    if at.Entering? || at.Inside? then [at.item] else []
  }

  function Brings(at: CallerAt): multiset<Item> { multiset(Brought(at)) }

  /** Items scheduled and not yet pushed. */
  function OnTheWay(callers: seq<CallerAt>): multiset<Item>
  {
    if callers == [] then multiset{}
    else OnTheWay(callers[..|callers| - 1]) + Brings(callers[|callers| - 1])
  }

  /** The items of all calls of Schedule from outside. */
  function Called(steps: seq<Step>): multiset<Item>
  {
    if steps == [] then multiset{} else Calls(steps[0]) + Called(steps[1..])
  }

  function CallOf(step: Step): seq<Item> { if step.Call? then [step.item] else [] }

  function Calls(step: Step): multiset<Item> { multiset(CallOf(step)) }

  lemma {:induction false} OnTheWayUpdate(callers: seq<CallerAt>, c: nat, at: CallerAt)
    requires c < |callers|
    ensures OnTheWay(callers[c := at]) + Brings(callers[c]) == OnTheWay(callers) + Brings(at)
  {
    hide Brings;
    var n := |callers| - 1;
    if c < n {
      OnTheWayUpdate(callers[..n], c, at);
      assert callers[c := at][..n] == callers[..n][c := at];
      Regroup(OnTheWay(callers[..n][c := at]), Brings(callers[c]), OnTheWay(callers[..n]), Brings(at),
              Brings(callers[n]));
    } else {
      assert callers[c := at][..n] == callers[..n];
    }
  }

  lemma Regroup(a: multiset<Item>, b: multiset<Item>, c: multiset<Item>, d: multiset<Item>, e: multiset<Item>)
    requires a + b == c + d
    ensures a + e + b == c + e + d
  {
    assert a + e + b == a + b + e && c + e + d == c + d + e;
  }

  lemma StepConserves(s: State, step: Step)
    requires Inv(s) && Enabled(s, step)
    ensures var s' := Apply(s, step);
            multiset(s'.pushed) + OnTheWay(OuterCallers(s')) ==
            multiset(s.pushed) + OnTheWay(OuterCallers(s)) + Calls(step)
  {
    hide Exclusive, Balanced, InOrder, Attended, OnTheWay, Brings, Calls;
    var s' := Apply(s, step);
    if IsThreadStep(step) {
      ThreadStepWorks(s, step);
      assert Calls(step) == multiset{} by { NoCall(step); }
    } else {
      if step.c >= s.outer {
        InnerCallerWaits(s, step.c - s.outer, step);
      }
      var before, after, c := OuterCallers(s), OuterCallers(s'), step.c;
      OnTheWayUpdate(before, c, after[c]);
      assert after == before[c := after[c]];
      CallerFlow(s, step);
      Balance(multiset(s.pushed), multiset(s'.pushed), OnTheWay(before), OnTheWay(after), Brings(before[c]),
              Brings(after[c]), Calls(step));
    }
  }

  /** What one caller brings and what has been pushed change together. */
  lemma CallerFlow(s: State, step: Step)
    requires Enabled(s, step) && !IsThreadStep(step)
    ensures var s', c := Apply(s, step), step.c;
            multiset(s'.pushed) + Brings(s'.callers[c]) == multiset(s.pushed) + Brings(s.callers[c]) + Calls(step)
  {
    var s', c := Apply(s, step), step.c;
    BroughtNext(s, step);
    hide Brought, CallOf, Apply, Enabled;
    if step.Push? {
      PushedOne(s.pushed, s.callers[c].item);
    }
  }

  lemma BroughtNext(s: State, step: Step)
    requires Enabled(s, step) && !IsThreadStep(step)
    ensures var s', c := Apply(s, step), step.c;
            if step.Push? then
              && s'.pushed == s.pushed + [s.callers[c].item] && CallOf(step) == []
              && Brought(s'.callers[c]) == [] && Brought(s.callers[c]) == [s.callers[c].item]
            else
              && s'.pushed == s.pushed
              && (if step.Call? then Brought(s.callers[c]) == [] && Brought(s'.callers[c]) == CallOf(step)
                  else CallOf(step) == [] && Brought(s'.callers[c]) == Brought(s.callers[c]))
  {}

  lemma PushedOne(q: seq<Item>, item: Item)
    ensures multiset(q + [item]) == multiset(q) + multiset([item])
  {}

  lemma NoCall(step: Step)
    requires IsThreadStep(step)
    ensures Calls(step) == multiset{}
  {}

  lemma Balance(p: multiset<Item>, p': multiset<Item>, o: multiset<Item>, o': multiset<Item>, b: multiset<Item>,
                b': multiset<Item>, called: multiset<Item>)
    requires o' + b == o + b' && p' + b' == p + b + called
    ensures p' + o' == p + o + called
  {
    forall x ensures (p' + o')[x] == (p + o + called)[x] {
      assert (o' + b)[x] == (o + b')[x];
      assert (p' + b')[x] == (p + b + called)[x];
    }
  }

  lemma {:induction false} NothingLost(s: State, steps: seq<Step>)
    requires Inv(s) && CanRun(s, steps)
    ensures var r := Run(s, steps);
            multiset(r.pushed) + OnTheWay(OuterCallers(r)) ==
            multiset(s.pushed) + OnTheWay(OuterCallers(s)) + Called(steps)
    decreases |steps|
  {
    hide Inv, Apply, Enabled, OuterCallers, OnTheWay;
    if steps != [] {
      StepConserves(s, steps[0]);
      StepInv(s, steps[0]);
      NothingLost(Apply(s, steps[0]), steps[1..]);
    }
  }

  /** In every run, what has been pushed and what is on the way to be pushed are the items scheduled: none lost, none
      twice, none changed. */
  lemma ScheduledExactly(n: nat, steps: seq<Step>)
    requires CanRun(Init(n), steps)
    ensures var r := Run(Init(n), steps); multiset(r.pushed) + OnTheWay(OuterCallers(r)) == Called(steps)
  {
    hide Run, CanRun, OnTheWay, Called;
    InitInv(n);
    NothingLost(Init(n), steps);
    NothingOnTheWay(Init(n).callers);
    assert OuterCallers(Init(n)) == Init(n).callers;
  }

  lemma {:induction false} NothingOnTheWay(callers: seq<CallerAt>)
    requires forall c :: 0 <= c < |callers| ==> callers[c].Idle?
    ensures OnTheWay(callers) == multiset{}
  {
    if callers != [] {
      NothingOnTheWay(callers[..|callers| - 1]);
    }
  }

  // ----- how many threads get started

  /** Has read the flag as false and not yet launched. */
  function Starting(at: CallerAt): nat
  {
    if at.SawUnstarted? || at.Launching? then 1 else 0
  }

  /** Threads started, and threads about to be. */
  function Starts(s: State): nat { |s.threads| + Sum(s.callers, Starting) }

  lemma StepStarts(s: State, step: Step)
    requires Enabled(s, step)
    ensures Apply(s, step).started == (s.started || step.SetFlag?)
    ensures Starts(Apply(s, step)) == Starts(s) + if step.ReadFlag? && !s.started then 1 else 0
  {
    hide Sum;
    if IsThreadStep(step) {
      if step.CallInside? {
        SumUpdate(s.callers, Starting, Slot(s, step.t), Apply(s, step).callers[Slot(s, step.t)]);
      }
    } else {
      var at := if step.Launch? then Idle else Apply(s, step).callers[step.c];
      SumUpdate(s.callers, Starting, step.c, at);
      SumAppend(s.callers[step.c := at], Starting, Idle);
      assert Apply(s, step).callers ==
             if step.Launch? then s.callers[step.c := at] + [Idle] else s.callers[step.c := at];
    }
  }

  /** How often the flag is read before it is first set. */
  function EarlyReads(steps: seq<Step>): nat
  {
    if steps == [] || steps[0].SetFlag? then 0
    else (if steps[0].ReadFlag? then 1 else 0) + EarlyReads(steps[1..])
  }

  lemma {:induction false} RunStarts(s: State, steps: seq<Step>)
    requires CanRun(s, steps)
    ensures Starts(Run(s, steps)) == Starts(s) + if s.started then 0 else EarlyReads(steps)
    decreases |steps|
  {
    hide Apply, Enabled, Starts;
    if steps != [] {
      StepStarts(s, steps[0]);
      RunStarts(Apply(s, steps[0]), steps[1..]);
    }
  }

  /** In every run, the threads started and about to be started are as many as the reads of the flag
      that come before it is first set. */
  lemma ThreadsStarted(n: nat, steps: seq<Step>)
    requires CanRun(Init(n), steps)
    ensures var s := Run(Init(n), steps); |s.threads| + Sum(s.callers, Starting) == EarlyReads(steps)
  {
    hide Run, CanRun, Sum, EarlyReads;
    RunStarts(Init(n), steps);
    SumZero(Init(n).callers, Starting);
  }

  // ----- running on

  lemma {:induction false} RunConcat(s: State, a: seq<Step>, b: seq<Step>)
    requires CanRun(s, a)
    ensures CanRun(s, a + b) <==> CanRun(Run(s, a), b)
    ensures CanRun(s, a + b) ==> Run(s, a + b) == Run(Run(s, a), b)
    decreases |a|
  {
    hide Enabled, Apply;
    if a == [] {
      assert a + b == b;
    } else {
      RunConcat(Apply(s, a[0]), a[1..], b);
      assert (a + b)[1..] == a[1..] + b;
    }
  }

  predicate ReadsNothing(steps: seq<Step>)
  {
    forall i {:trigger steps[i]} :: 0 <= i < |steps| ==> !steps[i].ReadFlag?
  }

  lemma {:induction false} EarlyReadsAppend(a: seq<Step>, b: seq<Step>)
    requires ReadsNothing(b)
    ensures EarlyReads(a + b) == EarlyReads(a)
    decreases |a| + |b|
  {
    if a != [] {
      EarlyReadsAppend(a[1..], b);
      assert (a + b)[1..] == a[1..] + b;
    } else {
      assert a + b == b;
      if b != [] {
        EarlyReadsAppend([], b[1..]);
        assert [] + b[1..] == b[1..];
      }
    }
  }

  /** Steps left to those about to start a thread. */
  function ToStart(at: CallerAt): nat
  {
    if at.SawUnstarted? then 2 else if at.Launching? then 1 else 0
  }

  lemma {:induction false} SomeoneStarting(callers: seq<CallerAt>) returns (c: nat)
    requires Sum(callers, Starting) > 0
    ensures c < |callers| && (callers[c].SawUnstarted? || callers[c].Launching?)
  {
    var n := |callers| - 1;
    if Starting(callers[n]) > 0 {
      c := n;
    } else {
      c := SomeoneStarting(callers[..n]);
    }
  }

  lemma StartingStep(s: State, c: nat) returns (step: Step)
    requires c < |s.callers| && (s.callers[c].SawUnstarted? || s.callers[c].Launching?)
    ensures Enabled(s, step) && !step.ReadFlag? && Sum(Apply(s, step).callers, ToStart) < Sum(s.callers, ToStart)
  {
    hide Sum;
    step := if s.callers[c].SawUnstarted? then SetFlag(c) else Launch(c);
    var at := if step.Launch? then Idle else Launching;
    SumUpdate(s.callers, ToStart, c, at);
    SumAppend(s.callers[c := at], ToStart, Idle);
  }

  /** Whoever is about to start a thread can be let do so, with no further reads. */
  lemma {:induction false} StartsComplete(s: State) returns (more: seq<Step>)
    ensures CanRun(s, more) && ReadsNothing(more) && Sum(Run(s, more).callers, Starting) == 0
    decreases Sum(s.callers, ToStart)
  {
    hide Sum, Apply, Enabled;
    if Sum(s.callers, Starting) == 0 {
      more := [];
    } else {
      var c := SomeoneStarting(s.callers);
      var step := StartingStep(s, c);
      var rest := StartsComplete(Apply(s, step));
      more := [step] + rest;
      assert more[1..] == rest;
    }
  }

  /** No run that goes on from here without reading the flag again has started a second thread. */
  ghost predicate OneThreadAtMost(n: nat, steps: seq<Step>)
    requires CanRun(Init(n), steps)
  {
    forall more :: ReadsNothing(more) && CanRun(Init(n), steps + more) ==> |Run(Init(n), steps + more).threads| <= 1
  }

  /** At most one thread ever starts if and only if no second caller reads the flag before the first
      sets it. */
  lemma OneThreadExactly(n: nat, steps: seq<Step>)
    requires CanRun(Init(n), steps)
    ensures |Run(Init(n), steps).threads| <= EarlyReads(steps)
    ensures OneThreadAtMost(n, steps) <==> EarlyReads(steps) <= 1
  {
    hide Run, CanRun, Sum, EarlyReads;
    ThreadsStarted(n, steps);
    forall more | ReadsNothing(more) && CanRun(Init(n), steps + more)
      ensures |Run(Init(n), steps + more).threads| <= EarlyReads(steps)
    {
      ThreadsStarted(n, steps + more);
      EarlyReadsAppend(steps, more);
    }
    var more := StartsComplete(Run(Init(n), steps));
    RunConcat(Init(n), steps, more);
    ThreadsStarted(n, steps + more);
    EarlyReadsAppend(steps, more);
  }

  // ----- two runs

  lemma RunSnoc(s: State, steps: seq<Step>, step: Step)
    requires CanRun(s, steps) && Enabled(Run(s, steps), step)
    ensures CanRun(s, steps + [step]) && Run(s, steps + [step]) == Apply(Run(s, steps), step)
  {
    hide Enabled, Apply;
    var r := Run(s, steps);
    assert CanRun(r, [step]) && Run(r, [step]) == Apply(r, step) by {
      assert [step][0] == step && [step][1..] == [];
      NoSteps(Apply(r, step));
    }
    RunConcat(s, steps, [step]);
  }

  lemma Then(s0: State, steps: seq<Step>, s: State, step: Step) returns (steps': seq<Step>, s': State)
    requires CanRun(s0, steps) && Run(s0, steps) == s && Enabled(s, step)
    ensures CanRun(s0, steps') && Run(s0, steps') == s' == Apply(s, step)
  {
    RunSnoc(s0, steps, step);
    steps', s' := steps + [step], Apply(s, step);
  }

  /** Schedule as far as the flag, which is found unset. */
  lemma UpToFlag(s0: State, steps: seq<Step>, s: State, c: nat, item: Item) returns (steps': seq<Step>, s': State)
    requires CanRun(s0, steps) && Run(s0, steps) == s
    requires c < s.outer && c < |s.callers| && s.callers[c].Idle? && s.mutex.Free? && !s.started
    ensures CanRun(s0, steps') && Run(s0, steps') == s'
    ensures s' == s.(callers := s.callers[c := SawUnstarted], queue := s.queue + [item], pushed := s.pushed + [item],
                     semaphore := s.semaphore + 1)
  {
    hide CanRun, Run;
    steps', s' := Then(s0, steps, s, Call(c, item));
    steps', s' := Then(s0, steps', s', Lock(c));
    steps', s' := Then(s0, steps', s', Push(c));
    steps', s' := Then(s0, steps', s', Post(c));
    steps', s' := Then(s0, steps', s', Unlock(c));
    steps', s' := Then(s0, steps', s', ReadFlag(c));
    assert s'.callers == s.callers[c := SawUnstarted];
  }

  /** The flag is read and set outside the mutex, so two callers can each launch a thread. */
  lemma TwoThreads()
    ensures exists steps :: CanRun(Init(2), steps) && |Run(Init(2), steps).threads| == 2
  {
    hide CanRun, Run;
    var s0 := Init(2);
    var steps: seq<Step>, s := [], s0;
    NoSteps(s0);
    steps, s := UpToFlag(s0, steps, s, 0, Item(7, []));
    steps, s := UpToFlag(s0, steps, s, 1, Item(8, []));
    steps, s := Then(s0, steps, s, SetFlag(0));
    steps, s := Then(s0, steps, s, SetFlag(1));
    steps, s := Then(s0, steps, s, Launch(0));
    steps, s := Then(s0, steps, s, Launch(1));
  }

  lemma NoSteps(s: State)
    ensures CanRun(s, []) && Run(s, []) == s
  {}

  lemma Launched(item: Item) returns (steps: seq<Step>, s: State)
    ensures CanRun(Init(1), steps) && Run(Init(1), steps) == s
    ensures s == State([item], 1, true, Free, 1, [Idle, Idle], [Waiting], false, [item], [])
  {
    hide CanRun, Run;
    var s0 := Init(1);
    steps, s := [], s0;
    NoSteps(s0);
    steps, s := UpToFlag(s0, steps, s, 0, item);
    steps, s := Then(s0, steps, s, SetFlag(0));
    steps, s := Then(s0, steps, s, Launch(0));
  }

  /** One caller and an item that schedules another are enough for a thread to wait for itself. */
  lemma StuckRun()
    ensures exists steps :: CanRun(Init(1), steps) && Stuck(Run(Init(1), steps), 0)
  {
    hide CanRun, Run;
    var s0 := Init(1);
    var item := Item(7, [Item(8, [])]);
    var steps, s := Launched(item);
    steps, s := Then(s0, steps, s, Wait(0));
    steps, s := Then(s0, steps, s, LockThread(0));
    steps, s := Then(s0, steps, s, Front(0));
    steps, s := Then(s0, steps, s, Pop(0));
    steps, s := Then(s0, steps, s, CallInside(0));
  }
}
