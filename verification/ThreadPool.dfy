/** The worker pool (src/thread/ThreadPool.cpp): a task queue, a condition variable and
    workers. One action is one critical section, one notification or one task run; a
    schedule is any sequence of actions. */
module ThreadPools {
  import opened Text

  type Task = nat

  datatype Worker =
    | Ready              // about to lock the mutex and test the condition
    | Asleep             // in cv_.wait
    | Woken              // notified or woken spuriously, not yet back under the mutex
    | Busy(task: Task)   // running a task outside the lock
    | Exited

  datatype Phase = Fresh | Started | Stopping | Joining | Joined

  datatype State = State(
    tasks: seq<Task>,
    running: bool,
    workers: seq<Worker>,
    notifies: nat,        // submitters between their push and their notify_one
    phase: Phase,
    accepted: seq<Task>,  // history: submitted without an exception, in lock order
    taken: seq<Task>,     // history: taken off the queue, in lock order
    executed: seq<Task>)  // history: finished, in the order they finished

  const INITIAL: State := State([], false, [], 0, Fresh, [], [], [])

  datatype Action =
    | Start(threads: nat)
    | Submit(x: Task)      // the locked part of submit
    | NotifyOne(w: nat)    // its notify_one, reaching worker w
    | NotifyNobody         // ... or nobody, when no worker waits
    | Spurious(w: nat)
    | Enter(w: nat)        // a worker locks, tests the condition, then waits, takes or exits
    | Finish(w: nat)       // a worker ends its task, normally or by a caught exception
    | SetStopped           // stop(): running_ = false
    | NotifyAll            // stop(): cv_.notify_all()
    | Join                 // stop(): all threads have been joined

  function Step(s: State, a: Action): Option<State> {
    match a
    case Start(n) =>
      if s.phase == Fresh then Some(s.(running := true, phase := Started, workers := seq(n, i => Ready))) else None
    case Submit(x) =>
      if s.running then Some(s.(tasks := s.tasks + [x], accepted := s.accepted + [x], notifies := s.notifies + 1))
      else None
    case NotifyOne(w) =>
      if s.notifies > 0 && Is(s, w, Asleep) then
        Some(s.(notifies := s.notifies - 1, workers := s.workers[w := Woken]))
      else None
    case NotifyNobody =>
      if s.notifies > 0 && Asleep !in s.workers then Some(s.(notifies := s.notifies - 1)) else None
    case Spurious(w) => if Is(s, w, Asleep) then Some(s.(workers := s.workers[w := Woken])) else None
    case Enter(w) =>
      if !Is(s, w, Ready) && !Is(s, w, Woken) then None
      else if s.tasks != [] then
        Some(s.(workers := s.workers[w := Busy(s.tasks[0])], tasks := s.tasks[1..], taken := s.taken + [s.tasks[0]]))
      else Some(s.(workers := s.workers[w := if s.running then Asleep else Exited]))
    case Finish(w) =>
      if w < |s.workers| && s.workers[w].Busy? then
        Some(s.(workers := s.workers[w := Ready], executed := s.executed + [s.workers[w].task]))
      else None
    case SetStopped => if s.running then Some(s.(running := false, phase := Stopping)) else None
    case NotifyAll => if s.phase == Stopping then Some(s.(phase := Joining, workers := WakeAll(s.workers))) else None
    case Join =>
      if s.phase == Joining && (forall w :: w in s.workers ==> w == Exited) then Some(s.(phase := Joined)) else None
  }

  predicate Is(s: State, w: nat, what: Worker) { w < |s.workers| && s.workers[w] == what }

  function WakeAll(ws: seq<Worker>): seq<Worker> {
    seq(|ws|, i requires 0 <= i < |ws| => if ws[i] == Asleep then Woken else ws[i])
  }

  /** The tasks being run right now. */
  function InHand(ws: seq<Worker>): multiset<Task> {
    if ws == [] then multiset{}
    else Held(ws[0]) + InHand(ws[1..])
  }

  function Held(w: Worker): multiset<Task> { if w.Busy? then multiset{w.task} else multiset{} }

  function CountWoken(ws: seq<Worker>): nat {
    if ws == [] then 0 else (if ws[0] == Woken then 1 else 0) + CountWoken(ws[1..])
  }

  lemma AddToBoth(a: multiset<Task>, b: multiset<Task>, c: multiset<Task>, d: multiset<Task>, e: multiset<Task>)
    requires b + c == d + e
    ensures (a + b) + c == (a + d) + e
  {
    assert (a + b) + c == a + (b + c) && (a + d) + e == a + (d + e);
  }

  lemma {:induction false} UpdateWorker(ws: seq<Worker>, w: nat, new_: Worker)
    requires w < |ws|
    ensures InHand(ws[w := new_]) + Held(ws[w]) == InHand(ws) + Held(new_)
    ensures CountWoken(ws[w := new_]) + (if ws[w] == Woken then 1 else 0)
         == CountWoken(ws) + (if new_ == Woken then 1 else 0)
    decreases |ws|
  {
    var us := ws[w := new_];
    if w == 0 {
      assert us[1..] == ws[1..];
    } else {
      assert us[1..] == ws[1..][w - 1 := new_];
      UpdateWorker(ws[1..], w - 1, new_);
      AddToBoth(Held(ws[0]), InHand(us[1..]), Held(ws[w]), InHand(ws[1..]), Held(new_));
    }
  }

  /** What changing one worker does to the tasks in hand. */
  lemma HandChanges(ws: seq<Worker>, w: nat, new_: Worker)
    requires w < |ws|
    ensures !ws[w].Busy? && !new_.Busy? ==> InHand(ws[w := new_]) == InHand(ws)
    ensures !ws[w].Busy? && new_.Busy? ==> InHand(ws[w := new_]) == InHand(ws) + multiset{new_.task}
    ensures ws[w].Busy? && !new_.Busy? ==> InHand(ws[w := new_]) + multiset{ws[w].task} == InHand(ws)
  {
    UpdateWorker(ws, w, new_);
    hide InHand;
    assert InHand(ws) + multiset{} == InHand(ws);
    assert InHand(ws[w := new_]) + multiset{} == InHand(ws[w := new_]);
  }

  lemma {:induction false} NobodyBusy(ws: seq<Worker>)
    requires forall w :: w in ws ==> !w.Busy?
    ensures InHand(ws) == multiset{}
  {
    if ws != [] { NobodyBusy(ws[1..]); }
  }

  lemma {:induction false} WakeAllKeepsTasks(ws: seq<Worker>)
    ensures InHand(WakeAll(ws)) == InHand(ws)
    ensures Asleep !in WakeAll(ws)
  {
    if ws != [] {
      assert WakeAll(ws)[1..] == WakeAll(ws[1..]) && Held(WakeAll(ws)[0]) == Held(ws[0]);
      WakeAllKeepsTasks(ws[1..]);
    }
  }

  /** Each accepted task is taken once, in submit order, and then runs once. */
  ghost predicate Books(s: State) {
    s.accepted == s.taken + s.tasks && multiset(s.taken) == multiset(s.executed) + InHand(s.workers)
  }

  /** While a worker sleeps, every queued task has a notification or a woken worker of its
      own, and nobody sleeps through a stop. */
  ghost predicate Alert(s: State) {
    && (Asleep in s.workers && s.running ==> |s.tasks| <= s.notifies + CountWoken(s.workers))
    && (Asleep in s.workers && !s.running ==> s.phase == Stopping)
    && (s.running <==> s.phase == Started)
    && (s.phase == Fresh ==> s.workers == [] && s.tasks == [])
    && (Exited in s.workers ==> !s.running && s.tasks == [])
    && (s.phase == Joined ==> forall w :: w in s.workers ==> w == Exited)
  }

  ghost predicate Inv(s: State) { Books(s) && Alert(s) }

  lemma QueueToTaken(accepted: seq<Task>, taken: seq<Task>, tasks: seq<Task>)
    requires accepted == taken + tasks && tasks != []
    ensures accepted == (taken + [tasks[0]]) + tasks[1..]
    ensures multiset(taken + [tasks[0]]) == multiset(taken) + multiset{tasks[0]}
  {
    assert tasks == [tasks[0]] + tasks[1..];
  }

  lemma WorkerStepKeepsBooks(s: State, a: Action)
    requires Inv(s) && Step(s, a).Some? && (a.NotifyOne? || a.Spurious? || a.Enter? || a.Finish?)
    ensures Books(Step(s, a).value)
  {
    hide InHand, Alert;
    var n := Step(s, a).value;
    HandChanges(s.workers, a.w, n.workers[a.w]);
    var done, hand := multiset(s.executed), InHand(s.workers);
    if a.Enter? && s.tasks != [] {
      var x := s.tasks[0];
      QueueToTaken(s.accepted, s.taken, s.tasks);
      assert (done + hand) + multiset{x} == done + (hand + multiset{x});
    } else if a.Finish? {
      var x := s.workers[a.w].task;
      assert multiset(n.executed) == done + multiset{x};
      assert done + (InHand(n.workers) + multiset{x}) == (done + multiset{x}) + InHand(n.workers);
    }
  }

  lemma UpdatedMembers(ws: seq<Worker>, w: nat, new_: Worker)
    requires w < |ws|
    ensures ws[w] in ws && forall v :: v in ws[w := new_] ==> v in ws || v == new_
  {}

  lemma WakingKeepsAlert(s: State, a: Action)
    requires Alert(s) && Step(s, a).Some? && (a.NotifyOne? || a.Spurious?)
    ensures Alert(Step(s, a).value)
  {
    hide InHand, CountWoken;
    UpdateWorker(s.workers, a.w, Woken);
    UpdatedMembers(s.workers, a.w, Woken);
  }

  lemma EnterKeepsAlert(s: State, w: nat)
    requires Alert(s) && Step(s, Enter(w)).Some?
    ensures Alert(Step(s, Enter(w)).value)
  {
    hide InHand, CountWoken;
    var new_ := Step(s, Enter(w)).value.workers[w];
    UpdateWorker(s.workers, w, new_);
    UpdatedMembers(s.workers, w, new_);
  }

  lemma FinishKeepsAlert(s: State, w: nat)
    requires Alert(s) && Step(s, Finish(w)).Some?
    ensures Alert(Step(s, Finish(w)).value)
  {
    hide InHand, CountWoken;
    UpdateWorker(s.workers, w, Ready);
    UpdatedMembers(s.workers, w, Ready);
  }

  lemma StepKeepsInv(s: State, a: Action)
    requires Inv(s) && Step(s, a).Some?
    ensures Inv(Step(s, a).value)
  {
    hide InHand, CountWoken;
    if a.NotifyOne? || a.Spurious? || a.Enter? || a.Finish? {
      WorkerStepKeepsBooks(s, a);
      if a.Enter? { EnterKeepsAlert(s, a.w); }
      else if a.Finish? { FinishKeepsAlert(s, a.w); }
      else { WakingKeepsAlert(s, a); }
      return;
    }
    match a
    case Start(n) =>
      NobodyBusy([]);
      NobodyBusy(Step(s, a).value.workers);
    case NotifyAll =>
      WakeAllKeepsTasks(s.workers);
      assert forall v :: v in WakeAll(s.workers) ==> v in s.workers || v == Woken;
    case Submit(x) =>
      assert s.accepted + [x] == s.taken + (s.tasks + [x]);
    case _ =>
  }

  function Run(s: State, schedule: seq<Action>): Option<State>
    decreases |schedule|
  {
    if schedule == [] then Some(s)
    else match Step(s, schedule[0])
      case None => None
      case Some(n) => Run(n, schedule[1..])
  }

  lemma {:induction false} RunKeepsInv(s: State, schedule: seq<Action>)
    requires Inv(s) && Run(s, schedule).Some?
    ensures Inv(Run(s, schedule).value)
    decreases |schedule|
  {
    hide Step, Inv;
    if schedule != [] {
      StepKeepsInv(s, schedule[0]);
      RunKeepsInv(Step(s, schedule[0]).value, schedule[1..]);
    }
  }

  /** In every reachable state the accepted tasks are those taken, in submit order, followed
      by those still queued; and those taken are the finished ones and the ones in hand. */
  lemma TakenInOrderRunOnce(schedule: seq<Action>)
    requires Run(INITIAL, schedule).Some?
    ensures var s := Run(INITIAL, schedule).value;
      s.accepted == s.taken + s.tasks && multiset(s.taken) == multiset(s.executed) + InHand(s.workers)
  {
    RunKeepsInv(INITIAL, schedule);
  }

  /** DRAIN ON STOP. When stop has joined its workers, of which there is at least one, the
      queue is empty and exactly the accepted tasks have run, each once. */
  lemma StopDrains(schedule: seq<Action>)
    requires Run(INITIAL, schedule).Some?
    requires var s := Run(INITIAL, schedule).value; s.phase == Joined && s.workers != []
    ensures var s := Run(INITIAL, schedule).value;
      s.tasks == [] && s.taken == s.accepted && multiset(s.executed) == multiset(s.accepted)
  {
    RunKeepsInv(INITIAL, schedule);
    var s := Run(INITIAL, schedule).value;
    assert s.workers[0] in s.workers;
    NobodyBusy(s.workers);
  }

  /** NO LOST WAKEUP. While a worker sleeps although tasks are queued or the pool was
      stopped, a notification is on its way or another worker has been woken - one for
      each queued task. */
  lemma NoWorkerSleepsThrough(schedule: seq<Action>)
    requires Run(INITIAL, schedule).Some?
    ensures var s := Run(INITIAL, schedule).value;
      Asleep in s.workers ==>
        if s.running then |s.tasks| <= s.notifies + CountWoken(s.workers) else s.phase == Stopping
  {
    RunKeepsInv(INITIAL, schedule);
  }

  // ------------------------------------------------------------- the object

  /** The fields guarded by the mutex; each method is one critical section. */
  class ThreadPool {
    var tasks: seq<Task>
    var running: bool
    ghost var rest: State

    ghost function View(): State
      reads this
    {
      rest.(tasks := tasks, running := running)
    }

    constructor ()
      ensures View() == INITIAL
    {
      tasks, running, rest := [], false, INITIAL;
    }

    /** submit: false stands for the exception. */
    method Submit(x: Task) returns (ok: bool)
      modifies this
      ensures ok == old(running)
      ensures if ok then Step(old(View()), Action.Submit(x)) == Some(View()) else View() == old(View())
    {
      if !running {
        return false;
      }
      rest := Step(View(), Action.Submit(x)).value;
      tasks := tasks + [x];
      return true;
    }

    /** The locked part of workerLoop, from the test of the condition on. */
    method EnterWorker(ghost w: nat) returns (task: Option<Task>, exits: bool)
      requires Step(View(), Enter(w)).Some?
      modifies this
      ensures Step(old(View()), Enter(w)) == Some(View())
      ensures View().workers[w] == if task.Some? then Busy(task.value) else if exits then Exited else Asleep
    {
      rest := Step(View(), Enter(w)).value;
      if tasks == [] {
        return None, !running;
      }
      task := Some(tasks[0]);
      tasks := tasks[1..];
      exits := false;
    }

    /** The locked part of stop: false when there is nothing to stop. */
    method BeginStop() returns (stopping: bool)
      modifies this
      ensures stopping == old(running)
      ensures if stopping then Step(old(View()), SetStopped) == Some(View()) else View() == old(View())
    {
      if !running {
        return false;
      }
      rest := Step(View(), SetStopped).value;
      running := false;
      return true;
    }
  }
}
