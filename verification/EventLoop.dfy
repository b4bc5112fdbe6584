/** The hand-off of functors to an event loop: a queue under a mutex, an eventfd that interrupts the
    poll, and a flag that tells the loop's own thread when it must wake itself. The model is a step
    system: each step is one lock acquisition, one flag access or one system call, and any number of
    producer threads interleave freely with the loop. */
module EventLoops {

  type Task = nat
  type Thread = nat

  /** Where the loop thread is. */
  datatype Pc =
    | Starting                    // before loop() is called
    | AtTest(first: bool)         // the loop's test of the quit flag
    | AtPoll(first: bool)
    | Handling(wakeActive: bool)  // poll returned; the wake-up channel is among the active ones
    | BeforeSwap                  // the calling flag is set, the queue not yet swapped
    | Running                     // functors of the swapped batch
    | Stopped

  /** `inFlight` are producers between their push and their wake-up; `owesWake` says the same of the
      loop thread itself. The two logs record what was queued and what has run. */
  datatype Loop = Loop(
    pc: Pc, pending: seq<Task>, batch: seq<Task>, counter: nat, calling: bool, quit: bool,
    inFlight: set<Thread>, owesWake: bool, queued: seq<Task>, executed: seq<Task>)

  const CREATED: Loop := Loop(Starting, [], [], 0, false, false, {}, false, [], [])

  datatype Step =
    | Push(thread: Thread, task: Task)  // queueInLoop on another thread: under the mutex
    | Wake(thread: Thread)              // ... and its write to the eventfd
    | QuitFrom(thread: Thread)          // quit() on another thread sets the flag, then wakes
    | QuitHere                          // quit() on the loop thread
    | LoopPush(task: Task)              // queueInLoop on the loop thread
    | LoopWake
    | Enter                             // loop() starts and clears the quit flag
    | TestQuit
    | PollReturns(wakeActive: bool)
    | HandleRead                        // the wake-up channel's callback
    | HandlingDone                      // sets the calling flag
    | Swap
    | RunFunctor
    | BatchDone                         // clears the calling flag

  const EVENTFD_MAX: nat := 0xFFFF_FFFF_FFFF_FFFE

  /** Writing to the eventfd adds one, unless that would overflow; then the write fails and the
      counter is left positive. */
  function Bump(counter: nat): nat { if counter < EVENTFD_MAX then counter + 1 else counter }

  predicate LoopMayStep(l: Loop) { !l.owesWake }

  predicate Enabled(l: Loop, s: Step) {
    match s
    case Push(thread, _) => thread !in l.inFlight
    case Wake(thread) => thread in l.inFlight
    case QuitFrom(thread) => thread !in l.inFlight
    case QuitHere => LoopMayStep(l) && (l.pc.Starting? || l.pc.Handling? || l.pc.Running?)
    case LoopPush(_) => LoopMayStep(l) && (l.pc.Starting? || l.pc.Handling? || l.pc.Running?)
    case LoopWake => l.owesWake
    case Enter => LoopMayStep(l) && l.pc.Starting?
    case TestQuit => l.pc.AtTest?
    case PollReturns(wakeActive) => LoopMayStep(l) && l.pc.AtPoll? && (wakeActive ==> l.counter > 0)
    case HandleRead => LoopMayStep(l) && l.pc.Handling? && l.pc.wakeActive
    case HandlingDone => LoopMayStep(l) && l.pc.Handling? && !l.pc.wakeActive
    case Swap => l.pc.BeforeSwap?
    case RunFunctor => LoopMayStep(l) && l.pc.Running? && l.batch != []
    case BatchDone => LoopMayStep(l) && l.pc.Running? && l.batch == []
  }

  function Next(l: Loop, s: Step): Loop
    requires Enabled(l, s)
  {
    match s
    case Push(thread, task) =>
      l.(pending := l.pending + [task], queued := l.queued + [task], inFlight := l.inFlight + {thread})
    case Wake(thread) => l.(counter := Bump(l.counter), inFlight := l.inFlight - {thread})
    case QuitFrom(thread) => l.(quit := true, inFlight := l.inFlight + {thread})
    case QuitHere => l.(quit := true)
    case LoopPush(task) => l.(pending := l.pending + [task], queued := l.queued + [task], owesWake := l.calling)
    case LoopWake => l.(counter := Bump(l.counter), owesWake := false)
    case Enter => l.(pc := AtTest(true), quit := false)
    case TestQuit => l.(pc := if l.quit then Stopped else AtPoll(l.pc.first))
    case PollReturns(wakeActive) => l.(pc := Handling(wakeActive))
    case HandleRead => l.(counter := 0, pc := Handling(false))
    case HandlingDone => l.(calling := true, pc := BeforeSwap)
    case Swap => l.(batch := l.pending, pending := [], pc := Running)
    case RunFunctor => l.(batch := l.batch[1..], executed := l.executed + [l.batch[0]])
    case BatchDone => l.(calling := false, pc := AtTest(false))
  }

  ghost predicate Runs(l: Loop, steps: seq<Step>)
    decreases |steps|
  {
    steps == [] || (Enabled(l, steps[0]) && Runs(Next(l, steps[0]), steps[1..]))
  }

  ghost function After(l: Loop, steps: seq<Step>): Loop
    requires Runs(l, steps)
    decreases |steps|
  {
    if steps == [] then l else After(Next(l, steps[0]), steps[1..])
  }

  // ---------------------------------------------------------------- invariants

  /** Exactly once and in order: what ran, what is left of the batch and what is pending make up what
      was queued. */
  ghost predicate InOrder(l: Loop) {
    l.executed + l.batch + l.pending == l.queued
  }

  /** Some wake-up for the pending functors has happened and was not consumed, or is on its way. */
  ghost predicate WakeComing(l: Loop) {
    l.counter > 0 || l.inFlight != {} || l.owesWake
  }

  ghost predicate Invariant(l: Loop) {
    && InOrder(l)
    && (l.calling <==> l.pc.BeforeSwap? || l.pc.Running?)
    && (l.owesWake ==> l.pc.Running?)
    && (!l.pc.Running? ==> l.batch == [])
    && (l.pc.Running? || l.pc == AtTest(false) || l.pc == AtPoll(false) ==> l.pending == [] || WakeComing(l))
  }

  /** No lost wake-up: the loop is not at a poll with functors pending and nothing to end the poll. */
  ghost predicate NoLostWakeup(l: Loop) {
    l.pc.AtPoll? && l.pending != [] ==> WakeComing(l)
  }

  lemma StepKeepsInvariant(l: Loop, s: Step)
    requires Invariant(l) && Enabled(l, s)
    ensures Invariant(Next(l, s))
  {
    var n := Next(l, s);
    match s
    case Push(thread, task) =>
      assert l.executed + l.batch + (l.pending + [task]) == (l.executed + l.batch + l.pending) + [task];
      assert thread in n.inFlight;
    case LoopPush(task) =>
      assert l.executed + l.batch + (l.pending + [task]) == (l.executed + l.batch + l.pending) + [task];
    case QuitFrom(thread) =>
      assert thread in n.inFlight;
    case Swap =>
      assert l.executed + [] + l.pending == l.executed + l.pending + [];
    case RunFunctor =>
      assert (l.executed + [l.batch[0]]) + l.batch[1..] + l.pending == l.executed + l.batch + l.pending;
    case _ =>
  }

  lemma {:induction false} RunKeepsInvariant(l: Loop, steps: seq<Step>)
    requires Invariant(l) && Runs(l, steps)
    ensures Invariant(After(l, steps))
    decreases |steps|
  {
    if steps != [] {
      StepKeepsInvariant(l, steps[0]);
      RunKeepsInvariant(Next(l, steps[0]), steps[1..]);
    }
  }

  /** In every interleaving every queued functor has run, is in the current batch or is pending: once
      each, in queueing order. At every poll after the first, pending functors have a wake-up coming. */
  lemma HandOff(steps: seq<Step>)
    requires Runs(CREATED, steps)
    ensures var l := After(CREATED, steps);
            && l.executed + l.batch + l.pending == l.queued
            && (l.pc == AtPoll(false) ==> NoLostWakeup(l))
  {
    RunKeepsInvariant(CREATED, steps);
  }

  // ---------------------------------------------------------------- the first poll

  ghost predicate Early(l: Loop) {
    l.pc.Starting? || l.pc == AtTest(true) || l.pc == AtPoll(true)
  }

  lemma {:induction false} NeverEarlyAgain(l: Loop, steps: seq<Step>)
    requires Runs(l, steps) && Early(After(l, steps))
    ensures Early(l)
    decreases |steps|
  {
    if steps != [] {
      NeverEarlyAgain(Next(l, steps[0]), steps[1..]);
    }
  }

  predicate ByLoopThread(s: Step) { s.LoopPush? }

  predicate ByOtherThread(s: Step) { s.Push? || s.QuitFrom? }

  lemma {:induction false} EarlyRun(l: Loop, steps: seq<Step>)
    requires Runs(l, steps) && Early(After(l, steps)) && Early(l) && !l.calling && !l.owesWake
    ensures var n := After(l, steps);
            && (WakeComing(n) <==> WakeComing(l) || exists s :: s in steps && ByOtherThread(s))
            && (n.pending != [] <==> l.pending != [] || exists s :: s in steps && (s.Push? || ByLoopThread(s)))
    decreases |steps|
  {
    if steps != [] {
      var n := Next(l, steps[0]);
      NeverEarlyAgain(n, steps[1..]);
      match steps[0] {
        case Push(thread, _) => assert thread in n.inFlight;
        case QuitFrom(thread) => assert thread in n.inFlight;
        case _ =>
      }
      EarlyRun(n, steps[1..]);
      assert forall s :: s in steps <==> s == steps[0] || s in steps[1..];
      assert WakeComing(n) <==> WakeComing(l) || ByOtherThread(steps[0]);
    }
  }

  /** At the first poll the law holds exactly if the loop thread queued nothing before loop(), or some
      other thread queued something or called quit(). */
  lemma FirstPollExactly(steps: seq<Step>)
    requires Runs(CREATED, steps) && After(CREATED, steps).pc == AtPoll(true)
    ensures NoLostWakeup(After(CREATED, steps))
            <==> ((exists s :: s in steps && ByLoopThread(s)) ==> exists s :: s in steps && ByOtherThread(s))
  {
    EarlyRun(CREATED, steps);
  }

  /** Queueing on the loop thread before loop() wakes nobody, so the first poll can sleep on it. */
  lemma FirstPollCanSleep(task: Task)
    ensures var steps := [LoopPush(task), Enter, TestQuit];
            Runs(CREATED, steps) && !NoLostWakeup(After(CREATED, steps))
  {
    var one := Next(CREATED, LoopPush(task));
    TakeStep(Next(one, Enter), TestQuit, []);
    TakeStep(one, Enter, [TestQuit] + []);
    TakeStep(CREATED, LoopPush(task), [Enter] + ([TestQuit] + []));
    assert [LoopPush(task)] + ([Enter] + ([TestQuit] + [])) == [LoopPush(task), Enter, TestQuit];
  }

  // ---------------------------------------------------------------- progress

  lemma {:induction false} LogsGrow(l: Loop, steps: seq<Step>)
    requires Runs(l, steps)
    ensures l.queued <= After(l, steps).queued && |l.executed| <= |After(l, steps).executed|
    decreases |steps|
  {
    if steps != [] {
      assert l.queued <= Next(l, steps[0]).queued;
      LogsGrow(Next(l, steps[0]), steps[1..]);
    }
  }

  /** Once a batch is done, at least the first `q` functors have run, if so many were queued before it was
      taken. */
  lemma {:induction false} BatchReaches(l: Loop, q: nat, steps: seq<Step>)
    requires Invariant(l) && Runs(l, steps) && BatchDone in steps
    requires q <= |l.queued| && (l.pc.Running? ==> q <= |l.executed| + |l.batch|)
    ensures q <= |After(l, steps).executed|
    decreases |steps|
  {
    var n := Next(l, steps[0]);
    if steps[0].BatchDone? {
      LogsGrow(n, steps[1..]);
    } else {
      StepKeepsInvariant(l, steps[0]);
      assert |l.queued| == |l.executed| + |l.batch| + |l.pending|;
      BatchReaches(n, q, steps[1..]);
    }
  }

  /** In every run from a poll on, however producers interleave: when the loop has finished a batch, all that
      was queued at that poll has run, in order. */
  lemma EveryTurnRunsPending(l: Loop, steps: seq<Step>)
    requires Invariant(l) && l.pc.AtPoll? && Runs(l, steps) && BatchDone in steps
    ensures l.queued <= After(l, steps).executed
  {
    var n := After(l, steps);
    RunKeepsInvariant(l, steps);
    LogsGrow(l, steps);
    BatchReaches(l, |l.queued|, steps);
    assert n.queued[..|n.executed|] == n.executed;
    assert l.queued == n.queued[..|l.queued|] == n.executed[..|l.queued|];
  }

  /** The loop on its own, once out of the poll, runs everything that was pending and is back at the
      next poll, unless told to quit. */
  lemma TurnRunsEverything(l: Loop) returns (steps: seq<Step>)
    requires Invariant(l) && l.pc.AtPoll?
    ensures Runs(l, steps)
    ensures var n := After(l, steps);
            n.executed == n.queued == l.queued && n.pc == (if l.quit then Stopped else AtPoll(false))
  {
    var awake := l.counter > 0;
    var a := Next(l, PollReturns(awake));
    var b := if awake then Next(a, HandleRead) else a;
    var c := Next(b, HandlingDone);
    var d := Next(c, Swap);
    var tail := RunBatch(d);
    TakeStep(c, Swap, tail);
    TakeStep(b, HandlingDone, [Swap] + tail);
    steps := [HandlingDone] + ([Swap] + tail);
    if awake {
      TakeStep(a, HandleRead, steps);
      steps := [HandleRead] + steps;
    }
    TakeStep(l, PollReturns(awake), steps);
    steps := [PollReturns(awake)] + steps;
  }

  lemma TakeStep(l: Loop, s: Step, rest: seq<Step>)
    requires Enabled(l, s) && Runs(Next(l, s), rest)
    ensures Runs(l, [s] + rest) && After(l, [s] + rest) == After(Next(l, s), rest)
  {
    assert ([s] + rest)[1..] == rest;
  }

  lemma {:induction false} RunBatch(l: Loop) returns (steps: seq<Step>)
    requires Invariant(l) && l.pc.Running? && !l.owesWake && l.pending == []
    ensures Runs(l, steps)
    ensures var n := After(l, steps);
            n.executed == n.queued == l.queued && n.pc == (if l.quit then Stopped else AtPoll(false))
    decreases |l.batch|
  {
    if l.batch == [] {
      TakeStep(Next(l, BatchDone), TestQuit, []);
      TakeStep(l, BatchDone, [TestQuit] + []);
      steps := [BatchDone] + ([TestQuit] + []);
    } else {
      StepKeepsInvariant(l, RunFunctor);
      var rest := RunBatch(Next(l, RunFunctor));
      TakeStep(l, RunFunctor, rest);
      steps := [RunFunctor] + rest;
    }
  }

  // ---------------------------------------------------------------- when the poll sleeps

  predicate IsWake(s: Step) { s.Wake? || s.LoopWake? }

  /** Some wake-up was written that the loop has not read since. */
  ghost predicate Unread(steps: seq<Step>) {
    exists i :: 0 <= i < |steps| && IsWake(steps[i]) && NoReadFrom(steps, i)
  }

  ghost predicate NoReadFrom(steps: seq<Step>, i: nat) {
    forall j :: i <= j < |steps| ==> !steps[j].HandleRead?
  }

  lemma {:induction false} CounterExactly(l: Loop, steps: seq<Step>)
    requires Runs(l, steps)
    ensures After(l, steps).counter > 0 <==> Unread(steps) || (l.counter > 0 && NoReadFrom(steps, 0))
    decreases |steps|
  {
    if steps != [] {
      var n, rest := Next(l, steps[0]), steps[1..];
      CounterExactly(n, rest);
      hide Runs, After;
      forall i | 0 <= i < |rest|
        ensures rest[i] == steps[i + 1] && (NoReadFrom(rest, i) <==> NoReadFrom(steps, i + 1)) {
        ShiftRead(steps, i);
      }
      assert NoReadFrom(steps, 0) <==> !steps[0].HandleRead? && NoReadFrom(rest, 0) by {
        ShiftRead(steps, 0);
      }
      if Unread(rest) {
        var i :| 0 <= i < |rest| && IsWake(rest[i]) && NoReadFrom(rest, i);
        assert IsWake(steps[i + 1]) && NoReadFrom(steps, i + 1);
      }
      if Unread(steps) {
        var i :| 0 <= i < |steps| && IsWake(steps[i]) && NoReadFrom(steps, i);
        if i > 0 {
          assert IsWake(rest[i - 1]) && NoReadFrom(rest, i - 1);
        }
      }
    }
  }

  lemma ShiftRead(steps: seq<Step>, i: nat)
    requires steps != []
    ensures NoReadFrom(steps[1..], i) <==> NoReadFrom(steps, i + 1)
  {
    var rest := steps[1..];
    assert forall j :: 0 <= j < |rest| ==> rest[j] == steps[j + 1];
    assert forall j :: 1 <= j < |steps| ==> steps[j] == rest[j - 1];
  }

  /** At a poll the eventfd is readable exactly if some wake-up was written that the loop has not read since:
      after a handled wake-up, with none written since, the poll sleeps again. */
  lemma PollWakesExactlyIf(steps: seq<Step>)
    requires Runs(CREATED, steps) && After(CREATED, steps).pc.AtPoll?
    ensures Enabled(After(CREATED, steps), PollReturns(true)) <==> Unread(steps)
  {
    RunKeepsInvariant(CREATED, steps);
    CounterExactly(CREATED, steps);
  }

  // ---------------------------------------------------------------- quitting

  predicate IsQuit(s: Step) { s.QuitHere? || s.QuitFrom? }

  /** quit() was called, and later the loop tested the flag. */
  ghost predicate QuitThenTest(steps: seq<Step>) {
    exists j, k :: 0 <= j < k < |steps| && IsQuit(steps[j]) && steps[k].TestQuit?
  }

  /** ... after loop() had begun. */
  ghost predicate EnterQuitTest(steps: seq<Step>) {
    exists i :: 0 <= i < |steps| && steps[i].Enter? && QuitThenTest(steps[i + 1..])
  }

  lemma QuitThenTestHead(steps: seq<Step>)
    requires steps != []
    ensures QuitThenTest(steps) <==> QuitThenTest(steps[1..]) || (IsQuit(steps[0]) && TestQuit in steps[1..])
  {
    var rest := steps[1..];
    assert forall i :: 0 <= i < |rest| ==> rest[i] == steps[i + 1];
    if QuitThenTest(rest) {
      var j, k :| 0 <= j < k < |rest| && IsQuit(rest[j]) && rest[k].TestQuit?;
      assert IsQuit(steps[j + 1]) && steps[k + 1].TestQuit?;
    }
    if IsQuit(steps[0]) && TestQuit in rest {
      var k :| 0 <= k < |rest| && rest[k] == TestQuit;
      assert steps[k + 1].TestQuit?;
    }
    if QuitThenTest(steps) {
      var j, k :| 0 <= j < k < |steps| && IsQuit(steps[j]) && steps[k].TestQuit?;
      assert rest[k - 1] in rest;
      if j > 0 {
        assert IsQuit(rest[j - 1]) && rest[k - 1].TestQuit?;
      }
    }
  }

  lemma EnterQuitTestHead(steps: seq<Step>)
    requires steps != []
    ensures EnterQuitTest(steps) <==> EnterQuitTest(steps[1..]) || (steps[0].Enter? && QuitThenTest(steps[1..]))
  {
    hide QuitThenTest;
    var rest := steps[1..];
    forall i | 0 <= i < |rest| ensures rest[i] == steps[i + 1] && rest[i + 1..] == steps[i + 2..] { }
    if EnterQuitTest(rest) {
      var i :| 0 <= i < |rest| && rest[i].Enter? && QuitThenTest(rest[i + 1..]);
      assert steps[i + 1].Enter? && QuitThenTest(steps[i + 1 + 1..]);
    }
    if EnterQuitTest(steps) {
      var i :| 0 <= i < |steps| && steps[i].Enter? && QuitThenTest(steps[i + 1..]);
      if i > 0 {
        assert rest[i - 1].Enter? && QuitThenTest(rest[i - 1 + 1..]);
      }
    }
  }

  lemma {:induction false} StopsWhileLooping(l: Loop, steps: seq<Step>)
    requires Invariant(l) && Runs(l, steps) && !l.pc.Starting? && !l.pc.Stopped?
    ensures After(l, steps).pc == Stopped <==> QuitThenTest(steps) || (l.quit && TestQuit in steps)
    decreases |steps|
  {
    hide QuitThenTest;
    if steps == [] {
      NothingThenTest();
    } else {
      var n := Next(l, steps[0]);
      StepKeepsInvariant(l, steps[0]);
      QuitThenTestHead(steps);
      assert TestQuit in steps <==> steps[0].TestQuit? || TestQuit in steps[1..];
      if n.pc.Stopped? {
        StaysStopped(n, steps[1..]);
      } else {
        StopsWhileLooping(n, steps[1..]);
      }
    }
  }

  lemma NothingThenTest()
    ensures !QuitThenTest([]) && !EnterQuitTest([])
  {
  }

  lemma {:induction false} StaysStopped(l: Loop, steps: seq<Step>)
    requires Runs(l, steps) && l.pc.Stopped? && !l.owesWake
    ensures After(l, steps).pc == Stopped
    decreases |steps|
  {
    if steps != [] {
      StaysStopped(Next(l, steps[0]), steps[1..]);
    }
  }

  lemma {:induction false} StopsFromStart(l: Loop, steps: seq<Step>)
    requires Invariant(l) && Runs(l, steps) && l.pc.Starting?
    ensures After(l, steps).pc == Stopped <==> EnterQuitTest(steps)
    decreases |steps|
  {
    hide QuitThenTest, EnterQuitTest;
    if steps == [] {
      NothingThenTest();
    } else {
      StepKeepsInvariant(l, steps[0]);
      EnterQuitTestHead(steps);
      if steps[0].Enter? {
        StopsWhileLooping(Next(l, steps[0]), steps[1..]);
        NoSecondEnter(Next(l, steps[0]), steps[1..]);
      } else {
        StopsFromStart(Next(l, steps[0]), steps[1..]);
      }
    }
  }

  lemma {:induction false} NoSecondEnter(l: Loop, steps: seq<Step>)
    requires Invariant(l) && Runs(l, steps) && !l.pc.Starting?
    ensures !EnterQuitTest(steps)
    decreases |steps|
  {
    hide QuitThenTest, EnterQuitTest;
    if steps == [] {
      NothingThenTest();
    } else {
      StepKeepsInvariant(l, steps[0]);
      EnterQuitTestHead(steps);
      NoSecondEnter(Next(l, steps[0]), steps[1..]);
    }
  }

  /** The loop has stopped exactly if quit() was called, by any thread, after loop() had begun, and the loop
      has tested the flag since. */
  lemma StopsExactlyIf(steps: seq<Step>)
    requires Runs(CREATED, steps)
    ensures After(CREATED, steps).pc == Stopped <==> EnterQuitTest(steps)
  {
    StopsFromStart(CREATED, steps);
  }

  /** A quit() before loop() is forgotten: loop() still reaches its first poll. */
  lemma EarlyQuitIsForgotten(thread: Thread)
    ensures var steps := [QuitFrom(thread), Enter, TestQuit];
            Runs(CREATED, steps) && After(CREATED, steps).pc == AtPoll(true)
  {
    var one := Next(CREATED, QuitFrom(thread));
    TakeStep(Next(one, Enter), TestQuit, []);
    TakeStep(one, Enter, [TestQuit] + []);
    TakeStep(CREATED, QuitFrom(thread), [Enter] + ([TestQuit] + []));
    assert [QuitFrom(thread)] + ([Enter] + ([TestQuit] + [])) == [QuitFrom(thread), Enter, TestQuit];
  }
}
