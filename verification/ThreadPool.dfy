/** A thread pool over a blocking queue. Workers, any number of submitting threads and one caller of
    stop() take steps at the granularity of one queue operation or one access to the running flag. */
module ThreadPools {

  type Thread = nat

  /** A queued job: a submitted task, known by how many were put before it, or one of the empty jobs
      with which stop() wakes the workers. */
  datatype Job = Task(number: nat) | EmptyJob

  datatype Worker =
    | AtFlag             // about to read the running flag
    | SawStopped         // read it as false, about to test the queue for emptiness
    | Taking             // in the timed take
    | Holding(job: Job)
    | Exited

  /** A thread inside submit(): it has seen the flag set; it has also seen room in the queue. */
  datatype Submitter = SawRunning | SawRoom

  datatype Stopper = NotStopping | ToClear | Waking(left: nat) | Stopped

  /** `puts` counts completed puts of tasks, `mark` those completed when stop() cleared the flag;
      `ran` lists the jobs run, in the order they finished, `cleared` those stop(false) threw away. */
  datatype Pool = Pool(
    maxQueueSize: nat, running: bool, queue: seq<Job>, workers: seq<Worker>, submitters: map<Thread, Submitter>,
    stopper: Stopper, puts: nat, mark: nat, ran: seq<Job>, cleared: seq<Job>)

  function Started(maxQueueSize: nat, workers: nat): Pool {
    Pool(maxQueueSize, true, [], seq(workers, _ => AtFlag), map[], NotStopping, 0, 0, [], [])
  }

  datatype Step =
    | SubmitBegins(thread: Thread)
    | SubmitChecks(thread: Thread)
    | SubmitPuts(thread: Thread)
    | StopBegins(drain: bool)
    | StopClears
    | StopPuts
    | StopJoins
    | ReadFlag(worker: nat)
    | TestEmpty(worker: nat)
    | Take(worker: nat)
    | RunJob(worker: nat)

  predicate Full(p: Pool) { p.maxQueueSize > 0 && |p.queue| >= p.maxQueueSize }

  predicate Enabled(p: Pool, s: Step) {
    match s
    case SubmitBegins(thread) => thread !in p.submitters
    case SubmitChecks(thread) => thread in p.submitters && p.submitters[thread].SawRunning?
    case SubmitPuts(thread) => thread in p.submitters && p.submitters[thread].SawRoom?
    case StopBegins(_) => p.stopper.NotStopping?
    case StopClears => p.stopper.ToClear?
    case StopPuts => p.stopper.Waking? && p.stopper.left > 0
    case StopJoins => p.stopper == Waking(0) && forall w :: w in p.workers ==> w.Exited?
    case ReadFlag(worker) => worker < |p.workers| && p.workers[worker].AtFlag?
    case TestEmpty(worker) => worker < |p.workers| && p.workers[worker].SawStopped?
    case Take(worker) => worker < |p.workers| && p.workers[worker].Taking?
    case RunJob(worker) => worker < |p.workers| && p.workers[worker].Holding?
  }

  function Next(p: Pool, s: Step): Pool
    requires Enabled(p, s)
  {
    match s
    case SubmitBegins(thread) =>
      // a submit that finds the flag clear drops its task
      if p.running then p.(submitters := p.submitters[thread := SawRunning]) else p
    case SubmitChecks(thread) =>
      // a submit that finds the queue full throws
      if Full(p) then p.(submitters := p.submitters - {thread}) else p.(submitters := p.submitters[thread := SawRoom])
    case SubmitPuts(thread) =>
      p.(submitters := p.submitters - {thread}, queue := p.queue + [Task(p.puts)], puts := p.puts + 1)
    case StopBegins(drain) =>
      p.(running := false, mark := p.puts, stopper := if drain then Waking(|p.workers|) else ToClear)
    case StopClears => p.(queue := [], cleared := p.queue, stopper := Waking(|p.workers|))
    case StopPuts => p.(queue := p.queue + [EmptyJob], stopper := Waking(p.stopper.left - 1))
    case StopJoins => p.(stopper := Stopped)
    case ReadFlag(worker) => p.(workers := p.workers[worker := if p.running then Taking else SawStopped])
    case TestEmpty(worker) => p.(workers := p.workers[worker := if p.queue == [] then Exited else Taking])
    case Take(worker) =>
      // the wait times out only on an empty queue
      if p.queue == [] then p.(workers := p.workers[worker := AtFlag])
      else p.(workers := p.workers[worker := Holding(p.queue[0])], queue := p.queue[1..])
    case RunJob(worker) =>
      p.(workers := p.workers[worker := AtFlag], ran := p.ran + [p.workers[worker].job])
  }

  ghost predicate Runs(p: Pool, steps: seq<Step>)
    decreases |steps|
  {
    steps == [] || (Enabled(p, steps[0]) && Runs(Next(p, steps[0]), steps[1..]))
  }

  ghost function After(p: Pool, steps: seq<Step>): Pool
    requires Runs(p, steps)
    decreases |steps|
  {
    if steps == [] then p else After(Next(p, steps[0]), steps[1..])
  }

  // ---------------------------------------------------------------- conservation

  function One(j: Job, k: Job): nat { if j == k then 1 else 0 }

  /** How often job `k` occurs in a list of jobs. */
  function Count(jobs: seq<Job>, k: Job): nat {
    if jobs == [] then 0 else One(jobs[0], k) + Count(jobs[1..], k)
  }

  function InHand(w: Worker, k: Job): nat { if w.Holding? then One(w.job, k) else 0 }

  /** How many workers hold job `k`. */
  function Held(workers: seq<Worker>, k: Job): nat {
    if workers == [] then 0 else InHand(workers[0], k) + Held(workers[1..], k)
  }

  lemma {:induction false} CountConcat(a: seq<Job>, b: seq<Job>, k: Job)
    ensures Count(a + b, k) == Count(a, k) + Count(b, k)
  {
    if a == [] {
      assert a + b == b;
    } else {
      assert (a + b)[1..] == a[1..] + b;
      CountConcat(a[1..], b, k);
    }
  }

  lemma CountAppend(a: seq<Job>, j: Job, k: Job)
    ensures Count(a + [j], k) == Count(a, k) + One(j, k)
  {
    CountConcat(a, [j], k);
  }

  lemma {:induction false} HeldUpdate(ws: seq<Worker>, i: nat, w: Worker, k: Job)
    requires i < |ws|
    ensures Held(ws[i := w], k) + InHand(ws[i], k) == Held(ws, k) + InHand(w, k)
  {
    if i == 0 {
      assert ws[0 := w][1..] == ws[1..];
    } else {
      assert ws[i := w][1..] == ws[1..][i - 1 := w];
      HeldUpdate(ws[1..], i - 1, w, k);
    }
  }

  lemma {:induction false} HeldNothing(ws: seq<Worker>, k: Job)
    requires forall w :: w in ws ==> !w.Holding?
    ensures Held(ws, k) == 0
  {
    if ws != [] {
      HeldNothing(ws[1..], k);
    }
  }

  lemma {:induction false} CountPositive(jobs: seq<Job>, k: Job)
    ensures Count(jobs, k) > 0 <==> k in jobs
  {
    if jobs != [] {
      CountPositive(jobs[1..], k);
    }
  }

  /** How often job `k` is about: among the jobs run, in a worker's hands, queued, or cleared. */
  function About(p: Pool, k: Job): nat {
    Count(p.ran, k) + Held(p.workers, k) + Count(p.queue, k) + Count(p.cleared, k)
  }

  /** How many empty jobs stop() has put. */
  function EmptyJobs(p: Pool): nat {
    match p.stopper
    case Waking(left) => if left <= |p.workers| then |p.workers| - left else 0
    case Stopped => |p.workers|
    case _ => 0
  }

  /** Every put task is about exactly once, and as many empty jobs as stop() has put; nothing else is. */
  ghost predicate Conserved(p: Pool) {
    && (p.stopper.NotStopping? || p.stopper.ToClear? ==> p.cleared == [])
    && (p.stopper.Waking? ==> p.stopper.left <= |p.workers|)
    && About(p, EmptyJob) == EmptyJobs(p)
    && forall k: nat :: About(p, Task(k)) == if k < p.puts then 1 else 0
  }

  /** No step loses or duplicates a job; a put adds its own. */
  lemma StepKeepsAbout(p: Pool, s: Step, k: Job)
    requires Enabled(p, s) && (s.StopClears? ==> p.cleared == [])
    ensures var added := (s.SubmitPuts? && k == Task(p.puts)) || (s.StopPuts? && k == EmptyJob);
            About(Next(p, s), k) == About(p, k) + if added then 1 else 0
  {
    var n := Next(p, s);
    match s
    case SubmitPuts(_) => CountAppend(p.queue, Task(p.puts), k);
    case StopPuts => CountAppend(p.queue, EmptyJob, k);
    case ReadFlag(worker) => HeldUpdate(p.workers, worker, n.workers[worker], k);
    case TestEmpty(worker) => HeldUpdate(p.workers, worker, n.workers[worker], k);
    case Take(worker) => HeldUpdate(p.workers, worker, n.workers[worker], k);
    case RunJob(worker) =>
      HeldUpdate(p.workers, worker, n.workers[worker], k);
      CountAppend(p.ran, p.workers[worker].job, k);
    case _ =>
  }

  lemma StepConserves(p: Pool, s: Step)
    requires Conserved(p) && Enabled(p, s)
    ensures Conserved(Next(p, s))
  {
    hide About;
    StepKeepsAbout(p, s, EmptyJob);
    forall k: nat ensures About(Next(p, s), Task(k)) == if k < Next(p, s).puts then 1 else 0 {
      StepKeepsAbout(p, s, Task(k));
    }
  }

  // ---------------------------------------------------------------- drain on stop

  /** Nothing put before the flag was cleared is still queued. */
  ghost predicate Drained(p: Pool) {
    forall j :: j in p.queue && j.Task? ==> j.number >= p.mark
  }

  /** A worker that saw the flag clear was not wrong; one that left did so after the queue had run dry. */
  ghost predicate WorkerSound(p: Pool, w: Worker) {
    && (w.SawStopped? ==> !p.running)
    && (w.Exited? ==> !p.running && Drained(p))
  }

  ghost predicate Invariant(p: Pool) {
    && Conserved(p)
    && (p.running <==> p.stopper.NotStopping?)
    && (!p.running ==> p.mark <= p.puts)
    && (forall i :: 0 <= i < |p.workers| ==> WorkerSound(p, p.workers[i]))
    && (|p.workers| == 0 ==> p.ran == [])
    && (p.stopper.Stopped? ==> forall i :: 0 <= i < |p.workers| ==> p.workers[i].Exited?)
  }

  /** Tasks put later are numbered later, so nothing undoes a drained queue. */
  lemma DrainedStays(p: Pool, s: Step)
    requires Enabled(p, s) && p.mark <= p.puts && Drained(p) && !s.StopBegins?
    ensures Drained(Next(p, s))
  {
    var n := Next(p, s);
    forall j | j in n.queue && j.Task? ensures j.number >= n.mark {
      assert j in p.queue || j == Task(p.puts);
    }
  }

  lemma StepKeepsInvariant(p: Pool, s: Step)
    requires Invariant(p) && Enabled(p, s)
    ensures Invariant(Next(p, s))
  {
    hide Conserved;
    StepConserves(p, s);
    if Drained(p) && !p.running && !s.StopBegins? {
      DrainedStays(p, s);
    }
  }

  lemma {:induction false} RunKeepsInvariant(p: Pool, steps: seq<Step>)
    requires Invariant(p) && Runs(p, steps)
    ensures Invariant(After(p, steps))
    decreases |steps|
  {
    hide Invariant;
    if steps != [] {
      StepKeepsInvariant(p, steps[0]);
      RunKeepsInvariant(Next(p, steps[0]), steps[1..]);
    }
  }

  lemma {:induction false} DrainRun(p: Pool, steps: seq<Step>)
    requires Runs(p, steps) && StopBegins(false) !in steps && p.cleared == [] && !p.stopper.ToClear?
    ensures After(p, steps).cleared == [] && |After(p, steps).workers| == |p.workers|
    decreases |steps|
  {
    if steps != [] {
      DrainRun(Next(p, steps[0]), steps[1..]);
    }
  }

  lemma StartedIsSound(maxQueueSize: nat, workers: nat)
    ensures Invariant(Started(maxQueueSize, workers))
  {
    var p := Started(maxQueueSize, workers);
    forall k: Job ensures About(p, k) == 0 {
      HeldNothing(p.workers, k);
    }
  }

  /** After stop(true): a put task has run once or is left behind in the queue; it is left behind only
      if its put came after the flag was cleared, or there is no worker. */
  lemma StoppedPool(p: Pool, k: nat)
    requires Invariant(p) && p.stopper.Stopped? && p.cleared == [] && k < p.puts
    ensures Count(p.ran, Task(k)) + Count(p.queue, Task(k)) == 1
    ensures k < p.mark ==> Count(p.ran, Task(k)) == if |p.workers| > 0 then 1 else 0
  {
    HeldNothing(p.workers, Task(k));
    assert About(p, Task(k)) == 1;
    CountPositive(p.queue, Task(k));
    if |p.workers| > 0 {
      assert WorkerSound(p, p.workers[0]);
    }
  }

  /** stop() has put one empty job for each worker; each has been run or is left behind in the queue. */
  lemma OneEmptyJobEach(p: Pool)
    requires Invariant(p) && p.stopper.Stopped? && p.cleared == []
    ensures Count(p.ran, EmptyJob) + Count(p.queue, EmptyJob) == |p.workers|
  {
    HeldNothing(p.workers, EmptyJob);
  }

  /** When stop(true) has returned, every task whose put completed before the flag was cleared has run
      exactly once, if and only if there is a worker or there was no such task. */
  lemma DrainOnStop(maxQueueSize: nat, workers: nat, steps: seq<Step>)
    requires Runs(Started(maxQueueSize, workers), steps) && StopBegins(false) !in steps
    requires After(Started(maxQueueSize, workers), steps).stopper.Stopped?
    ensures var p := After(Started(maxQueueSize, workers), steps);
            && p.mark <= p.puts
            && ((forall k: nat :: k < p.mark ==> Count(p.ran, Task(k)) == 1) <==> workers > 0 || p.mark == 0)
            && (forall k: nat :: k < p.puts ==> Count(p.ran, Task(k)) + Count(p.queue, Task(k)) == 1)
  {
    hide Conserved, Drained, WorkerSound;
    var first := Started(maxQueueSize, workers);
    StartedIsSound(maxQueueSize, workers);
    RunKeepsInvariant(first, steps);
    DrainRun(first, steps);
    var p := After(first, steps);
    forall k: nat | k < p.puts
      ensures Count(p.ran, Task(k)) + Count(p.queue, Task(k)) == 1
      ensures k < p.mark ==> Count(p.ran, Task(k)) == if workers > 0 then 1 else 0 {
      StoppedPool(p, k);
    }
    if workers == 0 && p.mark > 0 {
      FirstDidNotRun(p);
    }
  }

  lemma FirstDidNotRun(p: Pool)
    requires p.mark > 0 && Count(p.ran, Task(0)) == 0
    ensures !forall k: nat :: k < p.mark ==> Count(p.ran, Task(k)) == 1
  {
    var k: nat := 0;
    assert k < p.mark && Count(p.ran, Task(k)) == 0;
  }

  lemma TakeStep(p: Pool, s: Step, rest: seq<Step>)
    requires Enabled(p, s) && Runs(Next(p, s), rest)
    ensures Runs(p, [s] + rest) && After(p, [s] + rest) == After(Next(p, s), rest)
  {
    assert ([s] + rest)[1..] == rest;
  }

  lemma {:induction false} RunsConcat(p: Pool, a: seq<Step>, b: seq<Step>)
    requires Runs(p, a) && Runs(After(p, a), b)
    ensures Runs(p, a + b) && After(p, a + b) == After(After(p, a), b)
    decreases |a|
  {
    if a == [] {
      assert a + b == b;
    } else {
      assert (a + b)[1..] == a[1..] + b;
      RunsConcat(Next(p, a[0]), a[1..], b);
    }
  }

  // ---------------------------------------------------------------- when stop(true) leaves nothing behind

  /** Every task put so far has run exactly once. */
  ghost predicate AllRan(p: Pool) {
    forall k: nat :: k < p.puts ==> Count(p.ran, Task(k)) == 1
  }

  /** With no submit under way when the flag is cleared, no task is put any more. */
  lemma {:induction false} NoMorePuts(p: Pool, steps: seq<Step>)
    requires Runs(p, steps) && !p.running && !p.stopper.NotStopping? && p.submitters == map[]
    ensures var n := After(p, steps); n.puts == p.puts && n.mark == p.mark
    decreases |steps|
  {
    if steps != [] {
      NoMorePuts(Next(p, steps[0]), steps[1..]);
    }
  }

  /** What a worker still has to do before it can leave, with nobody else taking part. */
  function Rank(p: Pool, w: nat): nat
    requires w < |p.workers|
  {
    match p.workers[w]
    case Exited => 0
    case SawStopped => if p.queue == [] then 1 else 2
    case AtFlag => if p.queue == [] then 2 else 3
    case Taking => if p.queue == [] then 3 else 1
    case Holding(_) => if p.queue == [] then 3 else 4
  }

  /** The one step worker `w` can take. */
  function Turn(p: Pool, w: nat): (s: Step)
    requires w < |p.workers| && !p.workers[w].Exited?
    ensures Enabled(p, s)
  {
    match p.workers[w]
    case SawStopped => TestEmpty(w)
    case AtFlag => ReadFlag(w)
    case Taking => Take(w)
    case Holding(_) => RunJob(w)
  }

  /** Nothing differs but the queue, the worker `w` and what has run. */
  ghost predicate OnlyWorker(p: Pool, n: Pool, w: nat)
    requires w < |p.workers|
  {
    && n == p.(queue := n.queue, workers := n.workers, ran := n.ran)
    && |n.workers| == |p.workers| && n.workers == p.workers[w := n.workers[w]]
  }

  /** After the flag was cleared a worker, left alone, empties the queue and leaves. */
  lemma {:induction false} WorkerEmptiesQueue(p: Pool, w: nat) returns (steps: seq<Step>)
    requires w < |p.workers| && !p.running && (p.workers[w].Exited? ==> p.queue == [])
    ensures Runs(p, steps)
    ensures var n := After(p, steps); OnlyWorker(p, n, w) && n.queue == [] && n.workers[w].Exited?
    decreases |p.queue|, Rank(p, w)
  {
    steps := [];
    if !p.workers[w].Exited? {
      var s := Turn(p, w);
      var rest := WorkerEmptiesQueue(Next(p, s), w);
      TakeStep(p, s, rest);
      steps := [s] + rest;
    }
  }

  /** All workers from `w` on leave, one after the other. */
  lemma {:induction false} WorkersLeave(p: Pool, w: nat) returns (steps: seq<Step>)
    requires w <= |p.workers| && !p.running && (w > 0 ==> p.queue == [])
    requires forall i :: 0 <= i < w ==> p.workers[i].Exited?
    requires forall i :: w <= i < |p.workers| ==> !p.workers[i].Exited?
    ensures Runs(p, steps)
    ensures var n := After(p, steps);
            && n == p.(queue := n.queue, workers := n.workers, ran := n.ran) && |n.workers| == |p.workers|
            && (|p.workers| > 0 ==> n.queue == []) && forall i :: 0 <= i < |n.workers| ==> n.workers[i].Exited?
    decreases |p.workers| - w
  {
    steps := [];
    if w < |p.workers| {
      steps := WorkerEmptiesQueue(p, w);
      var n := After(p, steps);
      var rest := WorkersLeave(n, w + 1);
      RunsConcat(p, steps, rest);
      steps := steps + rest;
    }
  }

  lemma {:induction false} StopWakes(p: Pool) returns (steps: seq<Step>)
    requires p.stopper.Waking?
    ensures Runs(p, steps)
    ensures var n := After(p, steps); n == p.(queue := n.queue, stopper := Waking(0))
    decreases p.stopper.left
  {
    steps := [];
    if p.stopper.left > 0 {
      var rest := StopWakes(Next(p, StopPuts));
      TakeStep(p, StopPuts, rest);
      steps := [StopPuts] + rest;
    }
  }

  /** A submit that has seen the flag set ends by putting its task, once the queue is empty. */
  lemma SubmitEnds(p: Pool, t: Thread) returns (steps: seq<Step>)
    requires t in p.submitters && p.queue == []
    ensures Runs(p, steps)
    ensures After(p, steps) == p.(submitters := p.submitters - {t}, queue := [Task(p.puts)], puts := p.puts + 1)
  {
    var n := if p.submitters[t].SawRunning? then Next(p, SubmitChecks(t)) else p;
    NoSteps(Next(n, SubmitPuts(t)));
    TakeStep(n, SubmitPuts(t), []);
    steps := [SubmitPuts(t)] + [];
    assert n.submitters - {t} == p.submitters - {t};
    if p.submitters[t].SawRunning? {
      TakeStep(p, SubmitChecks(t), steps);
      steps := [SubmitChecks(t)] + steps;
    }
  }

  lemma NoSteps(p: Pool)
    ensures Runs(p, []) && After(p, []) == p
  {
  }

  /** A submit that is under way when the flag is cleared can be left behind: stop(true) returns with its
      task in the queue. */
  lemma SubmitLeftBehind(p: Pool, t: Thread) returns (steps: seq<Step>)
    requires p.stopper.Waking? && !p.running && t in p.submitters
    requires |p.workers| > 0 && forall i :: 0 <= i < |p.workers| ==> !p.workers[i].Exited?
    ensures Runs(p, steps)
    ensures var n := After(p, steps); n.stopper.Stopped? && n.puts == p.puts + 1 && n.queue == [Task(p.puts)]
  {
    hide Runs, After;
    var a := StopWakes(p);
    var p1 := After(p, a);
    var b := WorkersLeave(p1, 0);
    var p2 := After(p1, b);
    var c := SubmitEnds(p2, t);
    var p3 := After(p2, c);
    NoSteps(Next(p3, StopJoins));
    TakeStep(p3, StopJoins, []);
    RunsConcat(p, a, b);
    RunsConcat(p, a + b, c);
    RunsConcat(p, a + b + c, [StopJoins] + []);
    steps := a + b + c + ([StopJoins] + []);
  }

  /** From any state of a running pool with a worker: however stop(true) goes on, when it has returned every
      put task has run exactly once, if and only if no submit was under way when it cleared the flag. */
  lemma DrainsAllExactlyIf(p: Pool)
    requires Invariant(p) && p.running && |p.workers| > 0
    ensures var n := Next(p, StopBegins(true));
            (forall steps :: Runs(n, steps) && After(n, steps).stopper.Stopped? ==> AllRan(After(n, steps)))
            <==> p.submitters == map[]
  {
    var n := Next(p, StopBegins(true));
    StepKeepsInvariant(p, StopBegins(true));
    if p.submitters == map[] {
      forall steps | Runs(n, steps) && After(n, steps).stopper.Stopped? ensures AllRan(After(n, steps)) {
        StoppedHasRunAll(n, steps);
      }
    } else {
      var t :| t in p.submitters;
      forall i | 0 <= i < |p.workers| ensures !p.workers[i].Exited? {
        assert WorkerSound(p, p.workers[i]);
      }
      var steps := SubmitLeftBehind(n, t);
      SubmitWasLost(n, steps);
    }
  }

  lemma StoppedHasRunAll(n: Pool, steps: seq<Step>)
    requires Invariant(n) && !n.running && n.stopper.Waking? && n.mark == n.puts && n.cleared == []
    requires n.submitters == map[] && |n.workers| > 0
    requires Runs(n, steps) && After(n, steps).stopper.Stopped?
    ensures AllRan(After(n, steps))
  {
    hide Conserved, WorkerSound, Drained;
    var e := After(n, steps);
    RunKeepsInvariant(n, steps);
    NoMorePuts(n, steps);
    StaysDraining(n, steps);
    forall k: nat | k < e.puts ensures Count(e.ran, Task(k)) == 1 {
      StoppedPool(e, k);
    }
  }

  lemma {:induction false} StaysDraining(p: Pool, steps: seq<Step>)
    requires Runs(p, steps) && (p.stopper.Waking? || p.stopper.Stopped?) && p.cleared == []
    ensures After(p, steps).cleared == [] && |After(p, steps).workers| == |p.workers|
    decreases |steps|
  {
    if steps != [] {
      StaysDraining(Next(p, steps[0]), steps[1..]);
    }
  }

  lemma SubmitWasLost(n: Pool, steps: seq<Step>)
    requires Invariant(n) && Runs(n, steps) && n.stopper.Waking? && n.cleared == []
    requires var e := After(n, steps); e.stopper.Stopped? && e.puts == n.puts + 1 && e.queue == [Task(n.puts)]
    ensures !AllRan(After(n, steps))
  {
    hide Conserved, WorkerSound, Drained;
    var e := After(n, steps);
    RunKeepsInvariant(n, steps);
    StaysDraining(n, steps);
    StoppedPool(e, n.puts);
    CountPositive(e.queue, Task(n.puts));
  }

  /** So it goes in a pool of any size: one submit sees the flag set and loses its task. */
  lemma LateTaskIsLost(maxQueueSize: nat, workers: nat) returns (steps: seq<Step>)
    requires workers > 0
    ensures Runs(Started(maxQueueSize, workers), steps)
    ensures var p := After(Started(maxQueueSize, workers), steps);
            p.stopper.Stopped? && p.cleared == [] && p.puts == 1 && p.queue == [Task(0)] && Count(p.ran, Task(0)) == 0
  {
    var p0 := Started(maxQueueSize, workers);
    var p1 := Next(p0, SubmitBegins(0));
    var p2 := Next(p1, StopBegins(true));
    StartedIsSound(maxQueueSize, workers);
    StepKeepsInvariant(p0, SubmitBegins(0));
    StepKeepsInvariant(p1, StopBegins(true));
    steps := SubmitLeftBehind(p2, 0);
    RunKeepsInvariant(p2, steps);
    StaysDraining(p2, steps);
    StoppedPool(After(p2, steps), 0);
    CountPositive(After(p2, steps).queue, Task(0));
    TakeStep(p1, StopBegins(true), steps);
    steps := [StopBegins(true)] + steps;
    TakeStep(p0, SubmitBegins(0), steps);
    steps := [SubmitBegins(0)] + steps;
  }

  // ---------------------------------------------------------------- first in, first out

  /** Jobs whose tasks come in the order they were put. */
  ghost predicate Ordered(jobs: seq<Job>) {
    forall i, j :: 0 <= i < j < |jobs| && jobs[i].Task? && jobs[j].Task? ==> jobs[i].number < jobs[j].number
  }

  /** A worker has taken `j`: it has run or is in some hand. */
  ghost predicate WasTaken(p: Pool, j: Job) {
    j in p.ran || Holding(j) in p.workers
  }

  /** Every task taken was put before every task still queued. */
  ghost predicate TakenFirst(p: Pool) {
    && Ordered(p.queue)
    && (forall j :: j in p.queue && j.Task? ==> j.number < p.puts)
    && (forall j :: WasTaken(p, j) && j.Task? ==>
          j.number < p.puts && forall q :: q in p.queue && q.Task? ==> j.number < q.number)
  }

  lemma WorkerStepTakes(p: Pool, s: Step, j: Job)
    requires Enabled(p, s) && WasTaken(Next(p, s), j)
    ensures WasTaken(p, j) || (s.Take? && p.queue != [] && j == p.queue[0])
  {
    var n := Next(p, s);
    if Holding(j) in n.workers {
      var i :| 0 <= i < |n.workers| && n.workers[i] == Holding(j);
      assert i < |p.workers|;
      if p.workers[i] == Holding(j) {
        assert p.workers[i] in p.workers;
      }
    } else if s.RunJob? && j !in p.ran {
      assert p.workers[s.worker] == Holding(j);
      assert p.workers[s.worker] in p.workers;
    }
  }

  lemma QueueStep(p: Pool, s: Step)
    requires Enabled(p, s)
    ensures var n := Next(p, s);
            || n.queue == p.queue || n.queue == []
            || n.queue == p.queue + [Task(p.puts)] || n.queue == p.queue + [EmptyJob]
            || (s.Take? && p.queue != [] && n.queue == p.queue[1..])
    ensures Next(p, s).puts >= p.puts && (s.SubmitPuts? ==> Next(p, s).puts == p.puts + 1)
    ensures s.Take? && p.queue != [] ==> Next(p, s).queue == p.queue[1..]
    ensures Next(p, s).queue == p.queue + [Task(p.puts)] ==> s.SubmitPuts?
  {
    var n := Next(p, s);
    if n.queue == p.queue + [Task(p.puts)] {
      assert |n.queue| == |p.queue| + 1 && n.queue[|p.queue|] == Task(p.puts);
    }
  }

  lemma StepTakesFirst(p: Pool, s: Step)
    requires TakenFirst(p) && Enabled(p, s)
    ensures TakenFirst(Next(p, s))
  {
    var n := Next(p, s);
    QueueStep(p, s);
    forall j | WasTaken(n, j) && j.Task?
      ensures j.number < n.puts && forall q :: q in n.queue && q.Task? ==> j.number < q.number {
      WorkerStepTakes(p, s, j);
      hide Next, Enabled, WasTaken;
      forall q | q in n.queue && q.Task? ensures j.number < q.number {
        if s.Take? && p.queue != [] && j == p.queue[0] {
          var i :| 0 <= i < |p.queue[1..]| && p.queue[1..][i] == q;
          assert p.queue[i + 1] == q;
        } else {
          assert q in p.queue || q == Task(p.puts);
        }
      }
    }
  }

  lemma {:induction false} RunTakesFirst(p: Pool, steps: seq<Step>)
    requires TakenFirst(p) && Runs(p, steps)
    ensures TakenFirst(After(p, steps))
    decreases |steps|
  {
    hide TakenFirst, Next, Enabled;
    if steps != [] {
      StepTakesFirst(p, steps[0]);
      RunTakesFirst(Next(p, steps[0]), steps[1..]);
    }
  }

  /** With any number of workers, in every interleaving, no task is taken before one that was put earlier. */
  lemma FirstInFirstOut(maxQueueSize: nat, workers: nat, steps: seq<Step>)
    requires Runs(Started(maxQueueSize, workers), steps)
    ensures TakenFirst(After(Started(maxQueueSize, workers), steps))
  {
    RunTakesFirst(Started(maxQueueSize, workers), steps);
  }

  /** What a lone worker has run, and what it holds, in order. */
  function RanAndHeld(p: Pool): seq<Job> {
    p.ran + if |p.workers| == 1 && p.workers[0].Holding? then [p.workers[0].job] else []
  }

  lemma {:induction false} OneWorkerRun(p: Pool, steps: seq<Step>)
    requires TakenFirst(p) && Runs(p, steps) && |p.workers| == 1 && Ordered(RanAndHeld(p))
    ensures Ordered(RanAndHeld(After(p, steps)))
    decreases |steps|
  {
    if steps != [] {
      StepTakesFirst(p, steps[0]);
      var n := Next(p, steps[0]);
      assert Ordered(RanAndHeld(n)) && |n.workers| == 1 by { OneWorkerStep(p, steps[0]); }
      OneWorkerRun(n, steps[1..]);
    }
  }

  lemma OneWorkerStep(p: Pool, s: Step)
    requires TakenFirst(p) && Enabled(p, s) && |p.workers| == 1 && Ordered(RanAndHeld(p))
    ensures var n := Next(p, s); |n.workers| == 1 && Ordered(RanAndHeld(n))
  {
    var n := Next(p, s);
    if s.Take? && p.queue != [] {
      assert RanAndHeld(p) == p.ran && RanAndHeld(n) == p.ran + [p.queue[0]];
      forall i | 0 <= i < |p.ran| && p.ran[i].Task? && p.queue[0].Task? ensures p.ran[i].number < p.queue[0].number {
        assert WasTaken(p, p.ran[i]) && p.queue[0] in p.queue;
      }
    } else if s.RunJob? {
      assert RanAndHeld(n) == RanAndHeld(p);
    } else {
      assert RanAndHeld(n) == RanAndHeld(p) || RanAndHeld(n) == p.ran;
      assert Ordered(p.ran) by {
        assert forall i :: 0 <= i < |p.ran| ==> RanAndHeld(p)[i] == p.ran[i];
      }
    }
  }

  /** A pool with one worker runs tasks in the order they were put. */
  lemma OneWorkerRunsInOrder(maxQueueSize: nat, steps: seq<Step>)
    requires Runs(Started(maxQueueSize, 1), steps)
    ensures Ordered(After(Started(maxQueueSize, 1), steps).ran)
  {
    var p := After(Started(maxQueueSize, 1), steps);
    OneWorkerRun(Started(maxQueueSize, 1), steps);
    assert forall i :: 0 <= i < |p.ran| ==> RanAndHeld(p)[i] == p.ran[i];
  }

  // ---------------------------------------------------------------- stop without drain

  lemma {:induction false} ClearedStays(p: Pool, steps: seq<Step>)
    requires Runs(p, steps) && (p.stopper.Waking? || p.stopper.Stopped?)
    ensures After(p, steps).cleared == p.cleared
    decreases |steps|
  {
    if steps != [] {
      ClearedStays(Next(p, steps[0]), steps[1..]);
    }
  }

  /** stop(false) throws away exactly the tasks queued when it clears the queue: they never run. */
  lemma ClearedNeverRun(p: Pool, steps: seq<Step>, k: nat)
    requires Invariant(p) && Enabled(p, StopClears) && Task(k) in p.queue
    requires Runs(Next(p, StopClears), steps)
    ensures var n := Next(p, StopClears); n.queue == [] && n.ran == p.ran && n.workers == p.workers
    ensures Count(After(Next(p, StopClears), steps).ran, Task(k)) == 0
  {
    var n := Next(p, StopClears);
    StepKeepsInvariant(p, StopClears);
    RunKeepsInvariant(n, steps);
    ClearedStays(n, steps);
    CountPositive(p.queue, Task(k));
    var e := After(n, steps);
    assert About(e, Task(k)) <= 1;
  }

  // ---------------------------------------------------------------- the bounded queue

  /** The submitting threads that have seen room and not yet put. */
  function WithRoom(p: Pool): set<Thread> { set t | t in p.submitters && p.submitters[t].SawRoom? }

  /** Whose step this is, when it is a submitting thread's. */
  predicate From(threads: set<Thread>, s: Step) {
    s.SubmitBegins? || s.SubmitChecks? || s.SubmitPuts? ==> s.thread in threads
  }

  ghost predicate Bounded(p: Pool, threads: set<Thread>) {
    && p.maxQueueSize > 0
    && p.submitters.Keys <= threads
    && (p.stopper.Waking? ==> p.stopper.left <= |p.workers|)
    && |p.queue| + |WithRoom(p)| <= p.maxQueueSize + |threads| - 1 + EmptyJobs(p)
  }

  lemma Subset(a: set<Thread>, b: set<Thread>)
    requires a <= b
    ensures |a| <= |b|
  {
    if a != {} {
      var x :| x in a;
      Subset(a - {x}, b - {x});
    }
  }

  lemma StepKeepsBound(p: Pool, threads: set<Thread>, s: Step)
    requires Bounded(p, threads) && Enabled(p, s) && From(threads, s)
    ensures Bounded(Next(p, s), threads)
  {
    var n := Next(p, s);
    Subset(WithRoom(n), threads);
    match s
    case SubmitBegins(thread) => assert WithRoom(n) == WithRoom(p);
    case SubmitChecks(thread) => assert Full(p) ==> WithRoom(n) == WithRoom(p);
    case SubmitPuts(thread) => assert WithRoom(n) == WithRoom(p) - {thread};
    case _ => assert WithRoom(n) == WithRoom(p);
  }

  lemma {:induction false} KeepsBound(p: Pool, threads: set<Thread>, steps: seq<Step>)
    requires Bounded(p, threads) && Runs(p, steps) && forall s :: s in steps ==> From(threads, s)
    ensures Bounded(After(p, steps), threads) && After(p, steps).maxQueueSize == p.maxQueueSize
    ensures |After(p, steps).workers| == |p.workers|
    decreases |steps|
  {
    hide Bounded;
    if steps != [] {
      StepKeepsBound(p, threads, steps[0]);
      KeepsBound(Next(p, steps[0]), threads, steps[1..]);
    }
  }

  /** With k submitting threads and no stop the queue never holds more than maxQueueSize + k - 1 jobs;
      stop() adds at most one empty job for each worker. */
  lemma QueueBound(maxQueueSize: nat, workers: nat, threads: set<Thread>, steps: seq<Step>)
    requires maxQueueSize > 0 && Runs(Started(maxQueueSize, workers), steps)
    requires forall s :: s in steps ==> From(threads, s)
    ensures var p := After(Started(maxQueueSize, workers), steps);
            |p.queue| <= maxQueueSize + |threads| - 1 + if p.stopper.NotStopping? then 0 else workers
  {
    assert WithRoom(Started(maxQueueSize, workers)) == {};
    KeepsBound(Started(maxQueueSize, workers), threads, steps);
  }

  /** Threads 0 to k - 1. */
  function Threads(k: nat): (threads: set<Thread>)
    ensures |threads| == k && forall t: Thread :: t in threads <==> t < k
  {
    if k == 0 then {} else Threads(k - 1) + {k - 1}
  }

  function SeeingRoom(threads: set<Thread>): map<Thread, Submitter> { map t | t in threads :: SawRoom }

  /** Open for submits, with no thread inside one. */
  predicate Quiet(p: Pool) { p.running && p.stopper.NotStopping? && p.submitters == map[] }

  /** One thread on its own fills a queue up. */
  lemma {:induction false} Fill(p: Pool, n: nat) returns (steps: seq<Step>)
    requires Quiet(p) && |p.queue| + n <= p.maxQueueSize
    ensures Runs(p, steps) && forall s :: s in steps ==> From(Threads(1), s)
    ensures var q := After(p, steps); Quiet(q) && |q.queue| == |p.queue| + n && q.maxQueueSize == p.maxQueueSize
    decreases n
  {
    steps := [];
    if n > 0 {
      var p1 := Next(p, SubmitBegins(0));
      var p2 := Next(p1, SubmitChecks(0));
      var rest := Fill(Next(p2, SubmitPuts(0)), n - 1);
      TakeStep(p2, SubmitPuts(0), rest);
      TakeStep(p1, SubmitChecks(0), [SubmitPuts(0)] + rest);
      TakeStep(p, SubmitBegins(0), [SubmitChecks(0)] + ([SubmitPuts(0)] + rest));
      steps := [SubmitBegins(0)] + ([SubmitChecks(0)] + ([SubmitPuts(0)] + rest));
    }
  }

  lemma OneMoreSees(i: nat)
    ensures i !in SeeingRoom(Threads(i))
    ensures SeeingRoom(Threads(i))[i := SawRoom] == SeeingRoom(Threads(i + 1))
    ensures SeeingRoom(Threads(i))[i := SawRunning][i := SawRoom] == SeeingRoom(Threads(i + 1))
    ensures i in SeeingRoom(Threads(i + 1)) && SeeingRoom(Threads(i + 1))[i] == SawRoom
    ensures SeeingRoom(Threads(i + 1)) - {i} == SeeingRoom(Threads(i))
  {
    assert Threads(i + 1) == Threads(i) + {i};
  }

  /** Thread `i` comes to see the room that those before it see. */
  lemma SeeStep(p: Pool, i: nat)
    requires p.running && |p.queue| < p.maxQueueSize && p.submitters == SeeingRoom(Threads(i))
    ensures Enabled(p, SubmitBegins(i)) && Enabled(Next(p, SubmitBegins(i)), SubmitChecks(i))
    ensures Next(Next(p, SubmitBegins(i)), SubmitChecks(i)) == p.(submitters := SeeingRoom(Threads(i + 1)))
  {
    OneMoreSees(i);
    hide SeeingRoom, Threads;
  }

  lemma PutStep(p: Pool, i: nat)
    requires p.submitters == SeeingRoom(Threads(i + 1))
    ensures Enabled(p, SubmitPuts(i))
    ensures var n := Next(p, SubmitPuts(i));
            n.submitters == SeeingRoom(Threads(i)) && |n.queue| == |p.queue| + 1 && n.stopper == p.stopper
  {
    OneMoreSees(i);
    hide SeeingRoom, Threads;
  }

  /** Threads i to k - 1 all see the same room. */
  lemma {:induction false} AllSeeRoom(p: Pool, i: nat, k: nat) returns (steps: seq<Step>)
    requires p.running && p.stopper.NotStopping? && |p.queue| < p.maxQueueSize && i <= k
    requires p.submitters == SeeingRoom(Threads(i))
    ensures Runs(p, steps) && forall s :: s in steps ==> From(Threads(k), s)
    ensures After(p, steps) == p.(submitters := SeeingRoom(Threads(k)))
    decreases k - i
  {
    hide SeeingRoom, Next, Enabled, Runs, After, Threads;
    steps := [];
    NoSteps(p);
    if i < k {
      SeeStep(p, i);
      var p1 := Next(p, SubmitBegins(i));
      var rest := AllSeeRoom(Next(p1, SubmitChecks(i)), i + 1, k);
      TakeStep(p1, SubmitChecks(i), rest);
      TakeStep(p, SubmitBegins(i), [SubmitChecks(i)] + rest);
      steps := [SubmitBegins(i)] + ([SubmitChecks(i)] + rest);
    }
  }

  /** ... and all put. */
  lemma {:induction false} AllPut(p: Pool, k: nat) returns (steps: seq<Step>)
    requires p.submitters == SeeingRoom(Threads(k))
    ensures Runs(p, steps) && forall s :: s in steps ==> From(Threads(k), s)
    ensures |After(p, steps).queue| == |p.queue| + k && After(p, steps).stopper == p.stopper
    decreases k
  {
    hide SeeingRoom, Next, Enabled, Runs, After, Threads;
    steps := [];
    NoSteps(p);
    if k > 0 {
      PutStep(p, k - 1);
      var rest := AllPut(Next(p, SubmitPuts(k - 1)), k - 1);
      TakeStep(p, SubmitPuts(k - 1), rest);
      steps := [SubmitPuts(k - 1)] + rest;
    }
  }

  /** The bound is exact: for every limit and every number of submitting threads some run reaches it. */
  lemma QueueBoundIsReached(maxQueueSize: nat, workers: nat, k: nat) returns (steps: seq<Step>)
    requires maxQueueSize > 0 && k > 0
    ensures Runs(Started(maxQueueSize, workers), steps) && forall s :: s in steps ==> From(Threads(k), s)
    ensures var p := After(Started(maxQueueSize, workers), steps);
            p.stopper.NotStopping? && |p.queue| == maxQueueSize + |Threads(k)| - 1
  {
    hide Runs, After, Next, Enabled;
    var p := Started(maxQueueSize, workers);
    var a := Fill(p, maxQueueSize - 1);
    var p1 := After(p, a);
    var b := AllSeeRoom(p1, 0, k);
    var p2 := After(p1, b);
    var c := AllPut(p2, k);
    RunsConcat(p, a, b);
    RunsConcat(p, a + b, c);
    steps := a + b + c;
  }
}
