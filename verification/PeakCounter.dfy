/** The connection counters and their peak (src/util/Metrics.cpp, lines 28-43). Every atomic
    access of every thread is one action: the fetch_add, the load and each weak
    compare-and-swap, which may also fail for no reason. */
module PeakCounters {
  import opened Text

  type Thread = nat

  /** Where an open in flight stands: after its fetch_add, or with a value of the maximum. */
  datatype Phase = Added(mine: int) | Compared(mine: int, previousMax: nat)

  datatype State = State(current: int, max: nat, opening: map<Thread, Phase>)

  const INITIAL: State := State(0, 0, map[])

  datatype Action =
    | Opened(t: Thread)               // connectionsCurrent_.fetch_add(1) + 1
    | Load(t: Thread)                 // connectionsMax_.load()
    | Swap(t: Thread, spurious: bool) // the loop test, with compare_exchange_weak
    | Closed                          // connectionsCurrent_.fetch_sub(1)

  const INT64_MAX: int := 0x7fff_ffff_ffff_ffff
  const TWO_64: int := 0x1_0000_0000_0000_0000

  /** static_cast<uint64_t>. */
  function AsUnsigned(x: int): nat { x % TWO_64 }

  /** A connection is closed once, after it was opened, and fewer than 2^63 are open. */
  function Step(s: State, a: Action): Option<State> {
    match a
    case Opened(t) =>
      if t in s.opening || s.current == INT64_MAX then None
      else Some(s.(current := s.current + 1, opening := s.opening[t := Added(s.current + 1)]))
    case Load(t) =>
      if t !in s.opening || !s.opening[t].Added? then None
      else Some(s.(opening := s.opening[t := Compared(s.opening[t].mine, s.max)]))
    case Swap(t, spurious) =>
      if t !in s.opening || !s.opening[t].Compared? then None
      else
        var Compared(mine, previous) := s.opening[t];
        if AsUnsigned(mine) <= previous then Some(Returned(s, t))
        else if s.max == previous && !spurious then Some(Returned(s, t).(max := AsUnsigned(mine)))
        else Some(s.(opening := s.opening[t := Compared(mine, s.max)]))
    case Closed => if s.current > 0 then Some(s.(current := s.current - 1)) else None
  }

  function Returned(s: State, t: Thread): State { s.(opening := s.opening - {t}) }

  function Run(s: State, schedule: seq<Action>): Option<State>
    decreases |schedule|
  {
    if schedule == [] then Some(s)
    else match Step(s, schedule[0])
      case None => None
      case Some(n) => Run(n, schedule[1..])
  }

  /** The values connectionsCurrent_ takes over a run. */
  function Reached(s: State, schedule: seq<Action>): set<int>
    requires Run(s, schedule).Some?
    decreases |schedule|
  {
    {s.current} + if schedule == [] then {} else Reached(Step(s, schedule[0]).value, schedule[1..])
  }

  /** `reached` holds the values so far. The last conjunct is the heart: whoever raised the
      count above the recorded maximum has not finished. */
  predicate Inv(s: State, reached: set<int>) {
    && s.current in reached && s.max in reached
    && (forall v :: v in reached ==> 0 <= v <= INT64_MAX)
    && (forall t :: t in s.opening ==> s.opening[t].mine in reached)
    && (forall t :: t in s.opening && s.opening[t].Compared? ==> s.opening[t].previousMax <= s.max)
    && (forall v :: v in reached ==> v <= s.max || Covered(s, v))
  }

  predicate Covered(s: State, v: int) { exists t :: t in s.opening && s.opening[t].mine >= v }

  lemma UnsignedIsSame(x: int)
    requires 0 <= x <= INT64_MAX
    ensures AsUnsigned(x) == x
  {}

  lemma StepKeepsInv(s: State, a: Action, reached: set<int>)
    requires Inv(s, reached) && Step(s, a).Some?
    ensures var n := Step(s, a).value; Inv(n, reached + {n.current}) && s.max <= n.max
  {
    hide Covered, AsUnsigned;
    var n := Step(s, a).value;
    if a.Swap? { UnsignedIsSame(s.opening[a.t].mine); }
    forall v | v in reached + {n.current} ensures v <= n.max || Covered(n, v) {
      StepKeepsCover(s, a, reached, v);
    }
  }

  lemma StepKeepsCover(s: State, a: Action, reached: set<int>, v: int)
    requires Inv(s, reached) && Step(s, a).Some?
    requires v in reached || v == Step(s, a).value.current
    ensures var n := Step(s, a).value; v <= n.max || Covered(n, v)
  {
    var n := Step(s, a).value;
    if a.Opened? && v == n.current {
      assert n.opening[a.t].mine >= v;
    } else {
      StepFollows(s, a, reached);
      hide Step;
      assert v in reached || (a.Closed? && v == s.current - 1 && s.current in reached);
      CoverHolds(s, n, reached, if v in reached then v else s.current);
    }
  }

  lemma StepFollows(s: State, a: Action, reached: set<int>)
    requires Inv(s, reached) && Step(s, a).Some?
    ensures var n := Step(s, a).value; s.max <= n.max && Follows(s, n)
    ensures a.Closed? ==> Step(s, a).value.current == s.current - 1
    ensures !a.Closed? && !a.Opened? ==> Step(s, a).value.current == s.current
  {
    hide Covered, AsUnsigned;
    if a.Swap? { UnsignedIsSame(s.opening[a.t].mine); }
  }

  predicate Follows(s: State, n: State) {
    forall t :: t in s.opening ==>
      s.opening[t].mine <= n.max || (t in n.opening && n.opening[t].mine == s.opening[t].mine)
  }

  /** What is covered stays covered while every thread keeps its place or has raised the
      maximum to its own value. */
  lemma CoverHolds(s: State, n: State, reached: set<int>, v: int)
    requires v in reached && (v <= s.max || Covered(s, v)) && s.max <= n.max
    requires Follows(s, n)
    ensures v <= n.max || Covered(n, v)
  {}

  lemma {:induction false} RunKeepsInv(s: State, schedule: seq<Action>, reached: set<int>)
    requires Inv(s, reached) && Run(s, schedule).Some?
    ensures var e := Run(s, schedule).value; Inv(e, reached + Reached(s, schedule)) && s.max <= e.max
    decreases |schedule|
  {
    if schedule == [] {
      assert reached + {s.current} == reached;
    } else {
      var n := Step(s, schedule[0]).value;
      StepKeepsInv(s, schedule[0], reached);
      RunKeepsInv(n, schedule[1..], reached + {n.current});
      assert reached + {n.current} + Reached(n, schedule[1..]) == reached + Reached(s, schedule);
    }
  }

  lemma StartHolds()
    ensures Inv(INITIAL, {0})
  {}

  /** EXACT PEAK. In every run of opens and closes the maximum only grows, is always a value
      the count has had, and is the largest of them whenever no open is in flight. */
  lemma PeakIsExact(before: seq<Action>, after: seq<Action>)
    requires Run(INITIAL, before).Some? && Run(Run(INITIAL, before).value, after).Some?
    ensures var s := Run(INITIAL, before).value;
      var e := Run(s, after).value;
      var values := Reached(INITIAL, before) + Reached(s, after);
      && s.max <= e.max && e.max in values
      && (e.opening == map[] ==> forall v :: v in values ==> 0 <= v <= e.max)
  {
    StartHolds();
    RunKeepsInv(INITIAL, before, {0});
    var s := Run(INITIAL, before).value;
    var values := Reached(INITIAL, before);
    assert {0} + values == values;
    RunKeepsInv(s, after, values);
  }

  /** A value is missing from the maximum only while an open that saw as much is in flight. */
  lemma MissingPeakIsOnItsWay(schedule: seq<Action>, v: int)
    requires Run(INITIAL, schedule).Some? && v in Reached(INITIAL, schedule)
    ensures var s := Run(INITIAL, schedule).value;
      v <= s.max || exists t :: t in s.opening && s.opening[t].mine >= v
  {
    StartHolds();
    RunKeepsInv(INITIAL, schedule, {0});
  }

  /** A compare-and-swap that fails without being spurious was overtaken by a larger
      maximum: some thread always makes progress. */
  lemma FailureMeansProgress(s: State, t: Thread, reached: set<int>)
    requires Inv(s, reached) && Step(s, Swap(t, false)).Some?
    ensures var n := Step(s, Swap(t, false)).value;
      t in n.opening ==> s.opening[t].previousMax < n.opening[t].previousMax
  {}

  // --------------------------------------------------------------- the loop

  /** What the other threads do before the next atomic access of this one, and whether the
      access, if a compare-and-swap, fails spuriously. */
  datatype Interference = Interference(others: seq<Action>, spurious: bool)

  predicate Others(schedule: seq<Action>, t: Thread) {
    forall a :: a in schedule ==> a.Closed? || a.t != t
  }

  class Counters {
    var connectionsCurrent: int
    var connectionsMax: nat
    var opening: map<Thread, Phase> // the local variables of every thread

    function View(): State reads this { State(connectionsCurrent, connectionsMax, opening) }

    constructor ()
      ensures View() == INITIAL
    {
      connectionsCurrent, connectionsMax, opening := 0, 0, map[];
    }

    method SetView(s: State)
      modifies this
      ensures View() == s
    {
      connectionsCurrent, connectionsMax, opening := s.current, s.max, s.opening;
    }

    /** Other threads run, if they can, and leave this thread's variables alone. */
    method Interfere(others: seq<Action>, t: Thread) returns (done: seq<Action>)
      requires Others(others, t)
      modifies this
      ensures Run(old(View()), done) == Some(View()) && Others(done, t)
      ensures t in old(opening) <==> t in opening
      ensures t in opening ==> opening[t] == old(opening[t])
    {
      match Run(View(), others)
      case None =>
        done := [];
      case Some(s) =>
        done := others;
        OthersKeepLocals(View(), others, t);
        SetView(s);
    }

    /** onConnectionOpened, against any interference. `done` lists every atomic access made
        meanwhile, by this thread and by the others. */
    method OnConnectionOpened(t: Thread, script: seq<Interference>)
        returns (mine: int, done: seq<Action>)
      requires forall i :: 0 <= i < |script| ==> Others(script[i].others, t)
      requires exists reached :: Inv(View(), reached)
      requires t !in opening && connectionsCurrent < INT64_MAX
      modifies this
      ensures Run(old(View()), done) == Some(View())
      ensures mine == old(connectionsCurrent) + 1 && done != [] && done[0] == Opened(t)
      ensures t !in opening && connectionsMax >= mine
    {
      hide Inv, AsUnsigned, Run, Others;
      ghost var start := View();
      ghost var reached :| Inv(start, reached);
      CountIsNatural(start, reached);
      connectionsCurrent := connectionsCurrent + 1;
      mine := connectionsCurrent;
      UnsignedIsSame(mine);
      opening := opening[t := Added(mine)];
      done := [Opened(t)];
      RunOne(start, Opened(t));
      ghost var mid := View();
      var more := Perhaps(script, 0, t);
      RunJoin(start, done, more);
      done := done + more;

      var previousMax := connectionsMax;
      mid := View();
      opening := opening[t := Compared(mine, previousMax)];
      RunOne(mid, Load(t));
      RunJoin(start, done, [Load(t)]);
      done := done + [Load(t)];
      var i := 1;
      var won := false;
      while !won && AsUnsigned(mine) > previousMax
        invariant Run(start, done) == Some(View()) && done != [] && done[0] == Opened(t)
        invariant 0 < mine <= INT64_MAX
        invariant won ==> connectionsMax >= mine && t !in opening
        invariant !won ==> t in opening && opening[t] == Compared(mine, previousMax)
        decreases !won, if i < |script| then |script| - i else 0, if connectionsMax == previousMax then 0 else 1
      {
        more := Perhaps(script, i, t);
        RunJoin(start, done, more);
        done := done + more;
        mid := View();
        var spurious := i < |script| && script[i].spurious;
        if connectionsMax == previousMax && !spurious {
          connectionsMax := AsUnsigned(mine);
          opening := opening - {t};
          won := true;
        } else {
          previousMax := connectionsMax;
          opening := opening[t := Compared(mine, previousMax)];
        }
        RunOne(mid, Swap(t, spurious));
        RunJoin(start, done, [Swap(t, spurious)]);
        done := done + [Swap(t, spurious)];
        i := i + 1;
      }
      if !won {
        ReachedKeepsMax(start, done, reached, t);
        RunOne(View(), Swap(t, false));
        RunJoin(start, done, [Swap(t, false)]);
        done := done + [Swap(t, false)];
        opening := opening - {t};
      }
    }

    method Perhaps(script: seq<Interference>, i: nat, t: Thread) returns (done: seq<Action>)
      requires forall k :: 0 <= k < |script| ==> Others(script[k].others, t)
      modifies this
      ensures Run(old(View()), done) == Some(View()) && Others(done, t)
      ensures i >= |script| ==> View() == old(View())
      ensures t in old(opening) <==> t in opening
      ensures t in opening ==> opening[t] == old(opening[t])
    {
      if i < |script| {
        done := Interfere(script[i].others, t);
      } else {
        done := [];
      }
    }
  }

  lemma {:induction false} OthersKeepLocals(s: State, others: seq<Action>, t: Thread)
    requires Others(others, t) && Run(s, others).Some?
    ensures var e := Run(s, others).value;
      (t in s.opening <==> t in e.opening) && (t in s.opening ==> e.opening[t] == s.opening[t])
    decreases |others|
  {
    if others != [] {
      assert others[0] in others && forall a :: a in others[1..] ==> a in others;
      OthersKeepLocals(Step(s, others[0]).value, others[1..], t);
    }
  }

  lemma RunOne(s: State, a: Action)
    requires Step(s, a).Some?
    ensures Run(s, [a]) == Step(s, a)
  {
    assert [a][1..] == [];
  }

  lemma {:induction false} RunJoin(s: State, a: seq<Action>, b: seq<Action>)
    requires Run(s, a).Some?
    ensures Run(s, a + b) == Run(Run(s, a).value, b)
    decreases |a|
  {
    if a == [] {
      assert a + b == b;
    } else {
      assert (a + b)[1..] == a[1..] + b;
      RunJoin(Step(s, a[0]).value, a[1..], b);
    }
  }

  lemma CountIsNatural(s: State, reached: set<int>)
    requires Inv(s, reached)
    ensures 0 <= s.current
  {}

  lemma ReachedKeepsMax(s: State, done: seq<Action>, reached: set<int>, t: Thread)
    requires Inv(s, reached) && Run(s, done).Some?
    ensures var e := Run(s, done).value;
      t in e.opening && e.opening[t].Compared? ==> e.opening[t].previousMax <= e.max
  {
    RunKeepsInv(s, done, reached);
  }
}
