/** Posting tasks to an event loop from other threads (src/net/EventLoop.cpp).

    One action below is one critical section, one atomic access or one system call of
    some thread; a schedule is any sequence of actions, so it stands for any interleaving.
    The wakeup channel is an eventfd under edge-triggered epoll: epoll reports it once per
    write (`edge`), and the handler reads it until the counter is zero. */
module EventLoops {
  import opened Text

  type Task = nat
  type Thread = nat

  /** Where the loop thread stands. */
  datatype Place =
    | Checking                   // about to test quit_
    | AtWait                     // in epoll_wait
    | Dispatching(wakeup: bool)  // running event callbacks; is the wakeup channel among them?
    | Timers                     // running expired timers
    | Flagged                    // callingPendingFunctors_ is set
    | Running                    // running the tasks it swapped out
    | Posting                    // such a task has posted one itself, not yet woken the loop
    | Stopped

  datatype State = State(
    pending: seq<Task>,    // pendingFunctors_
    taken: seq<Task>,      // the local vector of doPendingFunctors, still to run
    calling: bool,         // callingPendingFunctors_
    counter: nat,          // value of the eventfd
    edge: bool,            // epoll has the wakeup channel on its ready list
    quit: bool,
    place: Place,
    unwoken: set<Thread>,  // threads between their push (or quit_ store) and their write
    queued: seq<Task>,     // history: everything posted, in the order of the lock
    executed: seq<Task>)   // history: everything run

  const INITIAL: State := State([], [], false, 0, false, false, Checking, {}, [], [])

  datatype Action =
    | Push(t: Thread, x: Task) // another thread: push under the lock
    | StoreQuit(t: Thread)     // another thread: quit_.store(true)
    | Wake(t: Thread)          // ... and its write to the eventfd
    | Check                    // while (!quit_.load())
    | WaitReturns(wakeup: bool) // epoll_wait returns, with or without the wakeup channel
    | ReadCounter              // handleWakeup: a read that returns something
    | ReadEmpty                // handleWakeup: the read that ends it
    | DispatchDone
    | SelfPush(x: Task)        // a callback on the loop thread: queueInLoop's push
    | SelfWake                 // ... and its wakeup, when tasks are being run
    | SelfQuit
    | SetFlag
    | Swap
    | RunTask
    | ClearFlag

  function Posted(s: State, x: Task): State {
    s.(pending := s.pending + [x], queued := s.queued + [x])
  }

  function Woken(s: State): State { s.(counter := s.counter + 1, edge := true) }

  /** The effect of an action; None where it cannot happen. */
  function Step(s: State, a: Action): Option<State> {
    match a
    case Push(t, x) => if t in s.unwoken then None else Some(Posted(s, x).(unwoken := s.unwoken + {t}))
    case StoreQuit(t) => if t in s.unwoken then None else Some(s.(quit := true, unwoken := s.unwoken + {t}))
    case Wake(t) => if t in s.unwoken then Some(Woken(s).(unwoken := s.unwoken - {t})) else None
    case Check => if s.place == Checking then Some(s.(place := if s.quit then Stopped else AtWait)) else None
    case WaitReturns(wakeup) =>
      if s.place != AtWait || (wakeup && !Ready(s)) then None
      else Some(s.(place := Dispatching(wakeup), edge := s.edge && !wakeup))
    case ReadCounter => if s.place == Dispatching(true) && s.counter > 0 then Some(s.(counter := 0)) else None
    case ReadEmpty =>
      if s.place == Dispatching(true) && s.counter == 0 then Some(s.(place := Dispatching(false))) else None
    case DispatchDone => if s.place == Dispatching(false) then Some(s.(place := Timers)) else None
    case SelfPush(x) =>
      if s.place == Running then Some(Posted(s, x).(place := Posting))
      else if s.place.Dispatching? || s.place == Timers then Some(Posted(s, x))
      else None
    case SelfWake => if s.place == Posting then Some(Woken(s).(place := Running)) else None
    case SelfQuit =>
      if s.place.Dispatching? || s.place == Timers || s.place == Running then Some(s.(quit := true)) else None
    case SetFlag => if s.place == Timers then Some(s.(place := Flagged, calling := true)) else None
    case Swap => if s.place == Flagged then Some(s.(place := Running, taken := s.pending, pending := [])) else None
    case RunTask =>
      if s.place == Running && s.taken != [] then
        Some(s.(executed := s.executed + [s.taken[0]], taken := s.taken[1..]))
      else None
    case ClearFlag => if s.place == Running && s.taken == [] then Some(s.(place := Checking, calling := false)) else None
  }

  /** Would epoll_wait return at once because of the wakeup channel? */
  predicate Ready(s: State) { s.edge && s.counter > 0 }

  predicate BeforeSwap(p: Place) { p == AtWait || p.Dispatching? || p == Timers || p == Flagged }

  /** First in, first out, exactly once. */
  predicate Fifo(s: State) { s.queued == s.executed + s.taken + s.pending }

  /** A non-zero counter is on epoll's ready list or being handled; tasks that the current
      round will not swap out, and a quit that its check will not see, have a wakeup pending
      or on its way. */
  predicate Alert(s: State) {
    && (s.calling <==> s.place in {Flagged, Running, Posting})
    && (s.place !in {Running, Posting} ==> s.taken == [])
    && (s.counter > 0 ==> s.edge || s.place == Dispatching(true))
    && (s.pending != [] && s.place in {Running, Checking, AtWait} ==> s.counter > 0 || s.unwoken != {})
    && (s.quit && s.place == AtWait ==> s.counter > 0 || s.unwoken != {})
  }

  predicate Inv(s: State) { Fifo(s) && Alert(s) }

  lemma StepKeepsFifo(s: State, a: Action)
    requires Inv(s) && Step(s, a).Some?
    ensures Fifo(Step(s, a).value)
  {
    var n := Step(s, a).value;
    match a
    case Push(_, x) =>
      assert n.queued == s.executed + s.taken + (s.pending + [x]);
    case SelfPush(x) =>
      assert n.queued == s.executed + s.taken + (s.pending + [x]);
    case Swap =>
      assert n.queued == s.executed + n.taken + [];
    case RunTask =>
      assert s.executed + s.taken == n.executed + n.taken;
    case _ =>
  }

  lemma StepKeepsAlert(s: State, a: Action)
    requires Alert(s) && Step(s, a).Some?
    ensures Alert(Step(s, a).value)
  {}

  lemma StepKeepsInv(s: State, a: Action)
    requires Inv(s) && Step(s, a).Some?
    ensures Inv(Step(s, a).value)
  {
    hide Step, Fifo, Alert;
    StepKeepsFifo(s, a);
    StepKeepsAlert(s, a);
  }

  function Run(s: State, schedule: seq<Action>): Option<State>
    decreases |schedule|
  {
    if schedule == [] then Some(s)
    else match Step(s, schedule[0])
      case None => None
      case Some(n) => Run(n, schedule[1..])
  }

  lemma {:induction false} RunKeepsInv(s: State, schedule: seq<Action>)
    requires Inv(s) && Run(s, schedule).Some?
    ensures Inv(Run(s, schedule).value)
    decreases |schedule|
  {
    hide Step, Inv;
    if schedule != [] {
      StepKeepsInv(s, schedule[0]);
      RunKeepsInv(Step(s, schedule[0]).value, schedule[1..]);
    }
  }

  /** FIFO, EXACTLY ONCE. In every reachable state the tasks run so far, those swapped out
      and those still pending are, in this order, all tasks in the order of the lock. */
  lemma PostedInOrderExactlyOnce(schedule: seq<Action>)
    requires Run(INITIAL, schedule).Some?
    ensures var s := Run(INITIAL, schedule).value; s.queued == s.executed + s.taken + s.pending
  {
    RunKeepsInv(INITIAL, schedule);
  }

  /** NO LOST WAKEUP. Whenever the loop is in epoll_wait although tasks are pending or it was
      told to quit, epoll_wait is about to return, or some thread has yet to write the
      eventfd; and that write makes it return. */
  lemma NoLostWakeup(schedule: seq<Action>)
    requires Run(INITIAL, schedule).Some?
    ensures var s := Run(INITIAL, schedule).value;
      s.place == AtWait && (s.pending != [] || s.quit) ==>
        && (Ready(s) || s.unwoken != {})
        && forall t :: t in s.unwoken ==> Step(s, Wake(t)).Some? && Ready(Step(s, Wake(t)).value)
  {
    RunKeepsInv(INITIAL, schedule);
  }

  /** What has to be true on the way from epoll_wait to the next check, for the tasks that
      had been queued when epoll_wait was entered. */
  predicate OnTheWay(s: State, n: nat) {
    || BeforeSwap(s.place)
    || (s.place in {Running, Posting} && n <= |s.executed| + |s.taken|)
    || n <= |s.executed|
  }

  lemma StepKeepsCourse(s: State, a: Action, n: nat)
    requires Inv(s) && n <= |s.queued| && OnTheWay(s, n) && Step(s, a).Some?
    ensures s.queued <= Step(s, a).value.queued && OnTheWay(Step(s, a).value, n)
  {}

  lemma {:induction false} RoundKeepsCourse(s: State, schedule: seq<Action>, n: nat)
    requires Inv(s) && n <= |s.queued| && OnTheWay(s, n) && Run(s, schedule).Some?
    ensures var e := Run(s, schedule).value; s.queued <= e.queued && OnTheWay(e, n)
    decreases |schedule|
  {
    hide Step, OnTheWay, Inv;
    if schedule != [] {
      StepKeepsCourse(s, schedule[0], n);
      StepKeepsInv(s, schedule[0]);
      RoundKeepsCourse(Step(s, schedule[0]).value, schedule[1..], n);
    }
  }

  /** EVERY ROUND RUNS WHAT WAS QUEUED BEFORE IT. From any reachable state in epoll_wait, by
      the time the loop tests quit_ again everything queued at that state has been run. */
  lemma RoundRunsEverythingQueued(before: seq<Action>, round: seq<Action>)
    requires Run(INITIAL, before).Some? && Run(INITIAL, before).value.place == AtWait
    requires var s := Run(INITIAL, before).value;
      Run(s, round).Some? && Run(s, round).value.place in {Checking, Stopped}
    ensures var s := Run(INITIAL, before).value;
      var e := Run(s, round).value;
      s.queued <= e.queued && s.queued <= e.executed
  {
    var s := Run(INITIAL, before).value;
    RunKeepsInv(INITIAL, before);
    RoundKeepsCourse(s, round, |s.queued|);
    RunKeepsInv(s, round);
  }

  // --------------------------------------------------- what happens meanwhile

  /** Actions of other threads, and of the callback or task the loop thread is running. */
  predicate Outside(a: Action) {
    a.Push? || a.StoreQuit? || a.Wake? || a.SelfPush? || a.SelfWake? || a.SelfQuit?
  }

  predicate Meanwhile(schedule: seq<Action>) { forall a :: a in schedule ==> Outside(a) }

  /** They leave alone what has been run and swapped out, and move the loop thread at most in
      and out of the wakeup of a task that posts. */
  predicate Undisturbed(s: State, e: State) {
    && e.taken == s.taken && e.executed == s.executed && s.queued <= e.queued
    && (e.place == s.place || {e.place, s.place} == {Running, Posting})
  }

  lemma OutsideStep(s: State, a: Action)
    requires Outside(a) && Step(s, a).Some?
    ensures Undisturbed(s, Step(s, a).value)
  {}

  lemma UndisturbedTwice(s: State, e: State, f: State)
    requires Undisturbed(s, e) && Undisturbed(e, f)
    ensures Undisturbed(s, f)
  {}

  lemma HeadRuns(s: State, a: Action, later: seq<Action>)
    requires Run(s, [a] + later).Some?
    ensures Step(s, a).Some? && Run(s, [a] + later) == Run(Step(s, a).value, later)
  {
    assert ([a] + later)[1..] == later;
  }

  /** The schedule of handleWakeup: each read that finds something, and what the others do
      before the next read. */
  function ReadTurns(between: seq<seq<Action>>): seq<Action> {
    if between == [] then [ReadEmpty] else [ReadCounter] + (between[0] + ReadTurns(between[1..]))
  }

  lemma ReadTurnsFit(s: State, between: seq<seq<Action>>)
    requires Run(s, ReadTurns(between)).Some?
    ensures s.counter > 0 <==> between != []
  {
    if between == [] {
      assert [ReadEmpty] + [] == [ReadEmpty];
      HeadRuns(s, ReadEmpty, []);
    } else {
      HeadRuns(s, ReadCounter, between[0] + ReadTurns(between[1..]));
    }
  }

  /** The schedule of the task loop, and of the whole of doPendingFunctors. */
  function TaskTurns(before: seq<seq<Action>>, later: seq<Action>): seq<Action> {
    if before == [] then later else before[0] + ([RunTask] + TaskTurns(before[1..], later))
  }

  function Round(pre: seq<Action>, before: seq<seq<Action>>, post: seq<Action>): seq<Action> {
    [SetFlag] + (pre + ([Swap] + TaskTurns(before, post + [ClearFlag])))
  }

  lemma {:induction false} OutsideRuns(s: State, others: seq<Action>, later: seq<Action>)
    requires Meanwhile(others) && Run(s, others + later).Some?
    ensures exists e :: Undisturbed(s, e) && Run(e, later) == Run(s, others + later)
    decreases |others|
  {
    hide Step, Outside, Undisturbed;
    if others == [] {
      assert others + later == later;
      Unmoved(s);
      assert Undisturbed(s, s) && Run(s, later) == Run(s, others + later);
    } else {
      var a, more := others[0], others[1..];
      assert others + later == [a] + (more + later) && a in others && forall x :: x in more ==> x in others;
      HeadRuns(s, a, more + later);
      OutsideStep(s, a);
      var n := Step(s, a).value;
      OutsideRuns(n, more, later);
      var e :| Undisturbed(n, e) && Run(e, later) == Run(n, more + later);
      UndisturbedTwice(s, n, e);
    }
  }

  lemma Unmoved(s: State)
    ensures Undisturbed(s, s)
  {}

  /** A possible schedule has one turn for each task swapped out. */
  lemma {:induction false} TaskTurnsFit(s: State, before: seq<seq<Action>>, post: seq<Action>)
    requires Run(s, TaskTurns(before, post + [ClearFlag])).Some? && Meanwhile(post)
    requires forall i :: 0 <= i < |before| ==> Meanwhile(before[i])
    ensures |before| == |s.taken|
    decreases |before|
  {
    hide Step, Undisturbed, Meanwhile;
    if before == [] {
      OutsideRuns(s, post, [ClearFlag]);
      var e :| Undisturbed(s, e) && Run(e, [ClearFlag]) == Run(s, post + [ClearFlag]);
      LastClears(s, e);
    } else {
      var later := TaskTurns(before[1..], post + [ClearFlag]);
      OutsideRuns(s, before[0], [RunTask] + later);
      var e :| Undisturbed(s, e) && Run(e, [RunTask] + later) == Run(s, before[0] + ([RunTask] + later));
      HeadRuns(e, RunTask, later);
      TaskTurnsFit(Step(e, RunTask).value, before[1..], post);
      TaskLeaves(s, e);
    }
  }

  lemma LastClears(s: State, e: State)
    requires Undisturbed(s, e) && Run(e, [ClearFlag]).Some?
    ensures s.taken == []
  {
    assert [ClearFlag] + [] == [ClearFlag];
    HeadRuns(e, ClearFlag, []);
  }

  lemma TaskLeaves(s: State, e: State)
    requires Undisturbed(s, e) && Step(e, RunTask).Some?
    ensures |s.taken| == |Step(e, RunTask).value.taken| + 1
  {}

  // ------------------------------------------------------------- the object

  /** The shared fields, changed in place by the code of the source; each method is one
      action of the protocol. */
  class EventLoop {
    var pendingFunctors: seq<Task>
    var callingPendingFunctors: bool
    var quitting: bool
    var wakeupCounter: nat
    ghost var rest: State // what is in no field: local variables, kernel, history

    ghost function View(): State
      reads this
    {
      rest.(pending := pendingFunctors, calling := callingPendingFunctors, quit := quitting, counter := wakeupCounter)
    }

    constructor ()
      ensures View() == INITIAL
    {
      pendingFunctors, callingPendingFunctors, quitting, wakeupCounter := [], false, false, 0;
      rest := INITIAL;
    }

    /** queueInLoop up to the end of the locked section; tells whether it has to wake the
        loop. `self` is the test isInLoopThread(). */
    method QueueInLoop(x: Task, self: bool, ghost t: Thread) returns (wake: bool)
      requires Inv(View()) && Step(View(), if self then SelfPush(x) else Push(t, x)).Some?
      modifies this
      ensures Step(old(View()), if self then SelfPush(x) else Push(t, x)) == Some(View())
      ensures wake <==> if self then View().place == Posting else t in View().unwoken
    {
      ghost var before := pendingFunctors;
      pendingFunctors := pendingFunctors + [x];
      ghost var next := Step(View().(pending := before), if self then SelfPush(x) else Push(t, x)).value;
      wake := !self || callingPendingFunctors;
      rest := next;
    }

    method Wakeup(self: bool, ghost t: Thread)
      requires Step(View(), if self then SelfWake else Wake(t)).Some?
      modifies this
      ensures Step(old(View()), if self then SelfWake else Wake(t)) == Some(View())
    {
      rest := Step(View(), if self then SelfWake else Wake(t)).value;
      wakeupCounter := wakeupCounter + 1;
    }

    /** The swap in doPendingFunctors. */
    method TakePending() returns (functors: seq<Task>)
      requires View().place == Flagged
      modifies this
      ensures Step(old(View()), Swap) == Some(View()) && functors == View().taken
    {
      rest := Step(View(), Swap).value;
      functors := pendingFunctors;
      pendingFunctors := [];
    }

    method Quit(self: bool, ghost t: Thread)
      requires Step(View(), if self then SelfQuit else StoreQuit(t)).Some?
      modifies this
      ensures Step(old(View()), if self then SelfQuit else StoreQuit(t)) == Some(View()) && quitting
    {
      rest := Step(View(), if self then SelfQuit else StoreQuit(t)).value;
      quitting := true;
    }

    /** One action of another thread, or of the callback being run. */
    method Perform(a: Action)
      requires Outside(a) && Inv(View()) && Step(View(), a).Some?
      modifies this
      ensures Step(old(View()), a) == Some(View())
    {
      match a {
        case Push(t, x) => var _ := QueueInLoop(x, false, t);
        case SelfPush(x) => var _ := QueueInLoop(x, true, 0);
        case Wake(t) => Wakeup(false, t);
        case SelfWake => Wakeup(true, 0);
        case StoreQuit(t) => Quit(false, t);
        case SelfQuit => Quit(true, 0);
      }
    }

    /** The others run while the loop thread is between two of its actions. */
    method Interfere(others: seq<Action>, ghost later: seq<Action>)
      requires Meanwhile(others) && Inv(View()) && Run(View(), others + later).Some?
      modifies this
      ensures Inv(View()) && Run(View(), later) == Run(old(View()), others + later)
      ensures Undisturbed(old(View()), View())
    {
      hide Run, Step, Inv, Undisturbed, Outside;
      ghost var start := View();
      assert others[0..] == others;
      Unmoved(start);
      for i := 0 to |others|
        invariant Inv(View()) && Undisturbed(start, View())
        invariant Run(View(), others[i..] + later) == Run(start, others + later)
      {
        ghost var s := View();
        assert others[i..] + later == [others[i]] + (others[i + 1..] + later);
        HeadRuns(s, others[i], others[i + 1..] + later);
        StepKeepsInv(s, others[i]);
        OutsideStep(s, others[i]);
        UndisturbedTwice(start, s, Step(s, others[i]).value);
        Perform(others[i]);
      }
      assert others[|others|..] + later == later;
    }

    /** handleWakeup: reads the counter until a read finds nothing, in every schedule in which
        others may write it again between the reads. */
    method HandleWakeup(between: seq<seq<Action>>)
      requires Inv(View()) && View().place == Dispatching(true)
      requires forall i :: 0 <= i < |between| ==> Meanwhile(between[i])
      requires Run(View(), ReadTurns(between)).Some?
      modifies this
      ensures Run(old(View()), ReadTurns(between)) == Some(View()) && Inv(View())
      ensures View().place == Dispatching(false) && wakeupCounter == 0
    {
      hide Run, Inv, Step;
      ghost var goal := Run(View(), ReadTurns(between));
      var i := 0;
      assert between[0..] == between;
      ReadTurnsFit(View(), between);
      while wakeupCounter > 0
        invariant 0 <= i <= |between| && Inv(View()) && View().place == Dispatching(true)
        invariant goal.Some? && Run(View(), ReadTurns(between[i..])) == goal
        invariant wakeupCounter > 0 <==> i < |between|
        decreases |between| - i
      {
        ghost var later := ReadTurns(between[i + 1..]);
        assert between[i..][1..] == between[i + 1..];
        HeadRuns(View(), ReadCounter, between[i] + later);
        StepKeepsInv(View(), ReadCounter);
        ReadStep(View());
        wakeupCounter := 0;
        Interfere(between[i], later);
        i := i + 1;
        ReadTurnsFit(View(), between[i..]);
      }
      assert between[i..] == [] && [ReadEmpty] + [] == [ReadEmpty];
      HeadRuns(View(), ReadEmpty, []);
      StepKeepsInv(View(), ReadEmpty);
      EmptyReadStep(View());
      RunNothing(Step(View(), ReadEmpty).value);
      rest := View().(place := Dispatching(false));
    }

    /** functor(): what it does itself is among the actions around it. */
    method RunFunctor(x: Task)
      requires View().taken != []
      modifies this`rest
      ensures View() == old(View()).(executed := old(View().executed) + [x], taken := old(View().taken)[1..])
    {
      rest := View().(executed := View().executed + [x], taken := View().taken[1..]);
    }

    /** The loop of doPendingFunctors over its local vector. */
    method RunTasks(functors: seq<Task>, before: seq<seq<Action>>, ghost later: seq<Action>)
      requires Inv(View()) && View().taken == functors && |before| == |functors|
      requires forall i :: 0 <= i < |before| ==> Meanwhile(before[i])
      requires Run(View(), TaskTurns(before, later)).Some?
      modifies this
      ensures Inv(View()) && Run(View(), later) == Run(old(View()), TaskTurns(before, later))
      ensures View().taken == [] && View().executed == old(View().executed) + functors
    {
      hide Run, Step, Inv, Meanwhile;
      ghost var goal := Run(View(), TaskTurns(before, later));
      assert before[0..] == before;
      for i := 0 to |functors|
        invariant Inv(View()) && goal.Some? && Run(View(), TaskTurns(before[i..], later)) == goal
        invariant View().taken == functors[i..] && View().executed == old(View().executed) + functors[..i]
      {
        assert before[i..][1..] == before[i + 1..];
        Interfere(before[i], [RunTask] + TaskTurns(before[i + 1..], later));
        HeadRuns(View(), RunTask, TaskTurns(before[i + 1..], later));
        StepKeepsInv(View(), RunTask);
        TaskStep(View());
        assert functors[i..][1..] == functors[i + 1..] && functors[i..][0] == functors[i];
        RunFunctor(functors[i]);
        assert functors[..i] + [functors[i]] == functors[..i + 1];
      }
      assert functors[..|functors|] == functors && before[|functors|..] == [];
    }

    /** doPendingFunctors, in every schedule in which tasks and other threads post more.
        Everything queued before the swap has run when it returns; what came later is still
        pending, with a wakeup. */
    method DoPendingFunctors(pre: seq<Action>, before: seq<seq<Action>>, post: seq<Action>)
      requires Inv(View()) && View().place == Timers && Meanwhile(pre) && Meanwhile(post)
      requires forall i :: 0 <= i < |before| ==> Meanwhile(before[i])
      requires Run(View(), Round(pre, before, post)).Some?
      modifies this
      ensures Run(old(View()), Round(pre, before, post)) == Some(View()) && Inv(View())
      ensures View().place == Checking && old(View().queued) <= View().executed
      ensures pendingFunctors != [] ==> wakeupCounter > 0 || View().unwoken != {}
    {
      hide Run, Step, Inv, Meanwhile;
      ghost var start := View();
      ghost var turns := TaskTurns(before, post + [ClearFlag]);
      HeadRuns(View(), SetFlag, pre + ([Swap] + turns));
      StepKeepsInv(View(), SetFlag);
      FlagStep(View());
      callingPendingFunctors := true;
      rest := View().(place := Flagged);

      Interfere(pre, [Swap] + turns);
      HeadRuns(View(), Swap, turns);
      StepKeepsInv(View(), Swap);
      SwapStep(View());
      var functors := TakePending();
      SwappedAll(View());
      TaskTurnsFit(View(), before, post);
      RunTasks(functors, before, post + [ClearFlag]);

      Interfere(post, [ClearFlag]);
      assert [ClearFlag] + [] == [ClearFlag];
      HeadRuns(View(), ClearFlag, []);
      StepKeepsInv(View(), ClearFlag);
      ClearStep(View());
      RunNothing(Step(View(), ClearFlag).value);
      callingPendingFunctors := false;
      rest := View().(place := Checking);
      CheckingIsCovered(View());
    }
  }

  lemma ReadStep(s: State)
    requires Step(s, ReadCounter).Some?
    ensures Step(s, ReadCounter) == Some(s.(counter := 0))
  {}

  lemma EmptyReadStep(s: State)
    requires Step(s, ReadEmpty).Some?
    ensures Step(s, ReadEmpty) == Some(s.(place := Dispatching(false)))
  {}

  lemma FlagStep(s: State)
    requires Step(s, SetFlag).Some?
    ensures Step(s, SetFlag) == Some(s.(place := Flagged, calling := true))
  {}

  lemma SwapStep(s: State)
    requires Step(s, Swap).Some?
    ensures s.place == Flagged
    ensures Step(s, Swap) == Some(s.(place := Running, taken := s.pending, pending := []))
  {}

  lemma TaskStep(s: State)
    requires Step(s, RunTask).Some?
    ensures Step(s, RunTask) == Some(s.(executed := s.executed + [s.taken[0]], taken := s.taken[1..]))
  {}

  lemma ClearStep(s: State)
    requires Step(s, ClearFlag).Some?
    ensures Step(s, ClearFlag) == Some(s.(place := Checking, calling := false))
  {}

  lemma RunNothing(s: State)
    ensures Run(s, []) == Some(s)
  {}

  lemma CheckingIsCovered(s: State)
    requires Inv(s) && s.place == Checking
    ensures s.pending != [] ==> s.counter > 0 || s.unwoken != {}
  {}

  lemma SwappedAll(s: State)
    requires Inv(s) && s.pending == []
    ensures s.queued == s.executed + s.taken
  {}
}
