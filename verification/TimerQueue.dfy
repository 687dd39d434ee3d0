/** The timer queue of an event loop (src/timer/TimerQueue.cpp, src/timer/Timer.cpp): a set
    ordered by expiration, a map by sequence number, and callbacks that add and cancel
    timers while a batch of expired timers is being run. A timer draws its number when it is
    created; one created on another thread reaches the two indexes only later, by a task
    posted to the loop. */
module TimerQueues {
  import opened Text

  // ----------------------------------------------------------------- timers

  /** A timer; `interval` is in seconds, zero for a one-shot. Time is in clock ticks. */
  datatype Timer = Timer(sequence: nat, expiration: int, interval: real)
  {
    predicate Repeats() { interval > 0.0 }

    /** secondsToDuration: nanoseconds, truncated. */
    function Ticks(): nat
      requires Repeats()
    {
      (interval * 1_000_000_000.0).Floor
    }

    /** Timer::restart of a repeating timer. */
    function Restarted(now: int): Timer
      requires Repeats()
    {
      this.(expiration := now + Ticks())
    }
  }

  datatype Entry = Entry(when: int, sequence: nat, timer: Timer)

  function EntryOf(t: Timer): Entry { Entry(t.expiration, t.sequence, t) }

  /** EntryCompare. */
  predicate Before(a: Entry, b: Entry) {
    if a.when != b.when then a.when < b.when else a.sequence < b.sequence
  }

  // ---------------------------------------------- the ordered set of entries

  predicate Sorted(es: seq<Entry>) {
    forall i, j :: 0 <= i < j < |es| ==> Before(es[i], es[j])
  }

  /** std::set::insert: an entry with an equal key stays. */
  function InsertEntry(es: seq<Entry>, e: Entry): seq<Entry> {
    if es == [] then [e]
    else if Before(e, es[0]) then [e] + es
    else if Before(es[0], e) then [es[0]] + InsertEntry(es[1..], e)
    else es
  }

  /** std::set::erase of the entry with this key. */
  function EraseEntry(es: seq<Entry>, when: int, sequence: nat): seq<Entry> {
    if es == [] then []
    else if es[0].when == when && es[0].sequence == sequence then es[1..]
    else [es[0]] + EraseEntry(es[1..], when, sequence)
  }

  lemma {:induction false} InsertedEntries(es: seq<Entry>, e: Entry)
    requires Sorted(es) && forall x :: x in es ==> x.sequence != e.sequence
    ensures Sorted(InsertEntry(es, e))
    ensures forall x :: x in InsertEntry(es, e) <==> x == e || x in es
  {
    if es != [] && Before(es[0], e) {
      var tail := es[1..];
      InsertedEntries(tail, e);
      assert es == [es[0]] + tail;
      assert forall x :: x in InsertEntry(tail, e) ==> Before(es[0], x);
    }
  }

  lemma {:induction false} ErasedEntries(es: seq<Entry>, when: int, sequence: nat)
    requires Sorted(es)
    ensures Sorted(EraseEntry(es, when, sequence))
    ensures forall x :: x in EraseEntry(es, when, sequence) <==>
      x in es && !(x.when == when && x.sequence == sequence)
  {
    if es != [] {
      var tail := es[1..];
      assert es == [es[0]] + tail;
      assert forall x :: x in tail ==> Before(es[0], x);
      if !(es[0].when == when && es[0].sequence == sequence) {
        ErasedEntries(tail, when, sequence);
        assert forall x :: x in EraseEntry(tail, when, sequence) ==> Before(es[0], x);
      }
    }
  }

  // ------------------------------------------------- the queue, as a value

  /** `posted` holds the timers that were created and not inserted yet. The numbers come
      from one counter for all queues: a timer of another queue is one that stays posted. */
  datatype Queue = Queue(entries: seq<Entry>, active: map<nat, Timer>, posted: map<nat, Timer>, nextSequence: nat)

  function Insert(q: Queue, t: Timer): Queue {
    q.(active := q.active[t.sequence := t], entries := InsertEntry(q.entries, EntryOf(t)))
  }

  /** The task that arrives with a timer created on another thread. */
  function InsertPosted(q: Queue, s: nat): Queue {
    if s in q.posted then Insert(q.(posted := q.posted - {s}), q.posted[s]) else q
  }

  /** What can happen while a callback runs or between batches: the loop thread adds a timer
      (which creates and inserts it at once) or cancels one, another thread creates one. A
      handle from another queue is ignored. */
  datatype Op =
    | Add(when: int, interval: real)
    | Create(when: int, interval: real)
    | Cancel(sequence: nat, own: bool)

  /** The constructor of a timer: its number is drawn at once. */
  function Created(q: Queue, when: int, interval: real): Queue {
    q.(nextSequence := q.nextSequence + 1, posted := q.posted[q.nextSequence := Timer(q.nextSequence, when, interval)])
  }

  function Apply(q: Queue, op: Op): Queue {
    match op
    case Add(when, interval) => InsertPosted(Created(q, when, interval), q.nextSequence)
    case Create(when, interval) => Created(q, when, interval)
    case Cancel(s, own) =>
      if !own || s !in q.active then q
      else q.(active := q.active - {s}, entries := EraseEntry(q.entries, q.active[s].expiration, s))
  }

  function ApplyAll(q: Queue, ops: seq<Op>): Queue
    decreases |ops|
  {
    if ops == [] then q else ApplyAll(Apply(q, ops[0]), ops[1..])
  }

  /** The two indexes agree, up to the timers of the current batch still to be run: those
      are out of the set, and in the map unless a callback has cancelled them. */
  predicate Agrees(q: Queue, waiting: seq<Timer>) {
    && Sorted(q.entries)
    && (forall e :: e in q.entries ==> e.sequence in q.active && e == EntryOf(q.active[e.sequence]))
    && (forall s :: s in q.active ==> q.active[s].sequence == s && s < q.nextSequence)
    && (forall s :: s in q.active ==> EntryOf(q.active[s]) in q.entries || q.active[s] in waiting)
    && (forall t :: t in waiting ==> t.sequence < q.nextSequence)
    && (forall e, t :: e in q.entries && t in waiting ==> e.sequence != t.sequence)
    && (forall i, j :: 0 <= i < j < |waiting| ==> waiting[i].sequence != waiting[j].sequence)
    && PostedApart(q, waiting)
  }

  /** A posted timer is in neither index and in no batch. */
  predicate PostedApart(q: Queue, waiting: seq<Timer>) {
    && (forall s :: s in q.posted ==> q.posted[s].sequence == s && s < q.nextSequence && s !in q.active)
    && (forall t :: t in waiting ==> t.sequence !in q.posted)
  }

  lemma InsertKeepsAgreement(q: Queue, t: Timer, waiting: seq<Timer>)
    requires Agrees(q, waiting) && t.sequence < q.nextSequence
    requires (forall e :: e in q.entries ==> e.sequence != t.sequence)
    requires (forall w :: w in waiting ==> w.sequence != t.sequence)
    requires t.sequence !in q.posted
    ensures Agrees(Insert(q, t), waiting)
  {
    InsertedEntries(q.entries, EntryOf(t));
  }

  lemma ApplyKeepsAgreement(q: Queue, op: Op, waiting: seq<Timer>)
    requires Agrees(q, waiting)
    ensures Agrees(Apply(q, op), waiting)
  {
    match op
    case Add(when, interval) =>
      CreatedKeepsAgreement(q, when, interval, waiting);
      InsertPostedKeepsAgreement(Created(q, when, interval), q.nextSequence, waiting);
    case Create(when, interval) =>
      CreatedKeepsAgreement(q, when, interval, waiting);
    case Cancel(s, own) =>
      if own && s in q.active {
        ErasedEntries(q.entries, q.active[s].expiration, s);
      }
  }

  lemma CreatedKeepsAgreement(q: Queue, when: int, interval: real, waiting: seq<Timer>)
    requires Agrees(q, waiting)
    ensures Agrees(Created(q, when, interval), waiting)
  {}

  lemma InsertPostedKeepsAgreement(q: Queue, s: nat, waiting: seq<Timer>)
    requires Agrees(q, waiting)
    ensures Agrees(InsertPosted(q, s), waiting)
  {
    if s in q.posted {
      var p := q.(posted := q.posted - {s});
      assert Agrees(p, waiting);
      InsertKeepsAgreement(p, q.posted[s], waiting);
    }
  }

  lemma {:induction false} ApplyAllKeepsAgreement(q: Queue, ops: seq<Op>, waiting: seq<Timer>)
    requires Agrees(q, waiting)
    ensures Agrees(ApplyAll(q, ops), waiting)
    decreases |ops|
  {
    hide Agrees, Apply;
    if ops != [] {
      ApplyKeepsAgreement(q, ops[0], waiting);
      ApplyAllKeepsAgreement(Apply(q, ops[0]), ops[1..], waiting);
    }
  }

  // ------------------------------------------------------------- one batch

  /** What the k-th callback of a run does; any behaviour of callbacks is some script. */
  type Script = nat -> seq<Op>

  /** Before the callback of t runs: a repeating timer is put back first, so that its own
      callback can cancel it. */
  function Rearm(q: Queue, t: Timer, now: int): Queue {
    if t.Repeats() then Insert(q, t.Restarted(now)) else q.(active := q.active - {t.sequence})
  }

  function Fire(q: Queue, t: Timer, now: int, ops: seq<Op>): Queue { ApplyAll(Rearm(q, t, now), ops) }

  function Batch(q: Queue, waiting: seq<Timer>, now: int, script: Script, k: nat): Queue
    decreases |waiting|
  {
    if waiting == [] then q
    else Batch(Fire(q, waiting[0], now, script(k)), waiting[1..], now, script, k + 1)
  }

  lemma RearmKeepsAgreement(q: Queue, waiting: seq<Timer>, now: int)
    requires waiting != [] && Agrees(q, waiting)
    ensures Agrees(Rearm(q, waiting[0], now), waiting[1..])
  {
    var t, rest := waiting[0], waiting[1..];
    RestAgrees(q, waiting);
    assert t in waiting;
    if t.Repeats() {
      var r := q.(active := q.active - {t.sequence});
      assert r.active[t.sequence := t.Restarted(now)] == q.active[t.sequence := t.Restarted(now)];
      InsertKeepsAgreement(r, t.Restarted(now), rest);
    }
  }

  lemma FireKeepsAgreement(q: Queue, waiting: seq<Timer>, now: int, ops: seq<Op>)
    requires waiting != [] && Agrees(q, waiting)
    ensures Agrees(Fire(q, waiting[0], now, ops), waiting[1..])
  {
    hide Agrees, Rearm;
    RearmKeepsAgreement(q, waiting, now);
    ApplyAllKeepsAgreement(Rearm(q, waiting[0], now), ops, waiting[1..]);
  }

  /** Taking the next timer out of the map as well leaves the others as they were. */
  lemma RestAgrees(q: Queue, waiting: seq<Timer>)
    requires waiting != [] && Agrees(q, waiting)
    ensures Agrees(q.(active := q.active - {waiting[0].sequence}), waiting[1..])
    ensures forall w :: w in waiting[1..] ==> w.sequence != waiting[0].sequence
  {
    assert waiting[0] in waiting;
    assert forall w :: w in waiting <==> w == waiting[0] || w in waiting[1..];
  }

  lemma {:induction false} BatchKeepsAgreement(q: Queue, waiting: seq<Timer>, now: int, script: Script, k: nat)
    requires Agrees(q, waiting)
    ensures Agrees(Batch(q, waiting, now, script, k), [])
    decreases |waiting|
  {
    hide Agrees, Fire;
    if waiting != [] {
      FireKeepsAgreement(q, waiting, now, script(k));
      BatchKeepsAgreement(Fire(q, waiting[0], now, script(k)), waiting[1..], now, script, k + 1);
    }
  }

  // ------------------------------------------- which timers survive a batch

  predicate Cancels(ops: seq<Op>, s: nat) { Cancel(s, true) in ops }

  lemma {:induction false} SurvivesCallback(q: Queue, ops: seq<Op>, s: nat)
    requires s < q.nextSequence
    ensures q.nextSequence <= ApplyAll(q, ops).nextSequence
    ensures s in ApplyAll(q, ops).active <==> s in q.active && !Cancels(ops, s)
    decreases |ops|
  {
    if ops != [] {
      assert Cancels(ops, s) <==> ops[0] == Cancel(s, true) || Cancels(ops[1..], s);
      SurvivesCallback(Apply(q, ops[0]), ops[1..], s);
    }
  }

  /** Position of the timer s among those still to be run; the length when it is not. */
  function IndexOf(waiting: seq<Timer>, s: nat): (i: nat)
    ensures i <= |waiting|
    ensures i < |waiting| ==> waiting[i].sequence == s
    ensures forall j :: 0 <= j < i ==> waiting[j].sequence != s
  {
    if waiting == [] || waiting[0].sequence == s then 0 else 1 + IndexOf(waiting[1..], s)
  }

  /** Some callback numbered from lo up to hi cancels the timer s. */
  ghost predicate CancelledBetween(script: Script, lo: nat, hi: nat, s: nat) {
    exists c: nat :: lo <= c < hi && Cancels(script(c), s)
  }

  /** Is the timer s registered after the batch, whose callbacks are numbered from k on?
      For one that is in the batch, earlier cancellations do not count: it is run and,
      if it repeats, armed again. */
  ghost predicate Survives(q: Queue, waiting: seq<Timer>, script: Script, k: nat, s: nat) {
    var i := IndexOf(waiting, s);
    if i < |waiting| then waiting[i].interval > 0.0 && !CancelledBetween(script, k + i, k + |waiting|, s)
    else s in q.active && !CancelledBetween(script, k, k + |waiting|, s)
  }

  lemma BetweenSplits(script: Script, lo: nat, hi: nat, s: nat)
    requires lo < hi
    ensures CancelledBetween(script, lo, hi, s) <==> Cancels(script(lo), s) || CancelledBetween(script, lo + 1, hi, s)
  {
    if CancelledBetween(script, lo + 1, hi, s) {
      var c: nat :| lo + 1 <= c < hi && Cancels(script(c), s);
    }
  }

  /** After the first callback, survival is decided by the rest of the batch. */
  lemma SurvivesStep(q: Queue, waiting: seq<Timer>, f: Queue, script: Script, k: nat, s: nat)
    requires waiting != [] && (waiting[0].sequence == s ==> IndexOf(waiting[1..], s) == |waiting| - 1)
    requires s in f.active <==>
      (if waiting[0].sequence == s then waiting[0].Repeats() else s in q.active) && !Cancels(script(k), s)
    ensures Survives(f, waiting[1..], script, k + 1, s) <==> Survives(q, waiting, script, k, s)
  {
    hide CancelledBetween, Cancels;
    BetweenSplits(script, k, k + |waiting|, s);
  }

  /** EXACT SURVIVAL. A timer known before the batch is registered after it if and only if
      it repeats (or was not due) and no callback from its own turn on cancelled it. */
  lemma {:induction false} SurvivesBatch(q: Queue, waiting: seq<Timer>, now: int, script: Script, k: nat, s: nat)
    requires Agrees(q, waiting) && s < q.nextSequence
    ensures s in Batch(q, waiting, now, script, k).active <==> Survives(q, waiting, script, k, s)
    decreases |waiting|
  {
    hide CancelledBetween, Cancels;
    if waiting == [] {
      NothingBetween(script, k, s);
    } else {
      hide Agrees, Survives;
      var f := Fire(q, waiting[0], now, script(k));
      SurvivesCallback(Rearm(q, waiting[0], now), script(k), s);
      FireKeepsAgreement(q, waiting, now, script(k));
      OneTurnEach(q, waiting, s);
      SurvivesStep(q, waiting, f, script, k, s);
      SurvivesBatch(f, waiting[1..], now, script, k + 1, s);
    }
  }

  /** A timer that is left is the one it was before, or was put back in its own turn. */
  lemma {:induction false} CallbackKeepsTimer(q: Queue, ops: seq<Op>, s: nat)
    requires s < q.nextSequence && s in ApplyAll(q, ops).active
    ensures s in q.active && ApplyAll(q, ops).active[s] == q.active[s]
    decreases |ops|
  {
    if ops != [] { CallbackKeepsTimer(Apply(q, ops[0]), ops[1..], s); }
  }

  lemma {:induction false} BatchKeepsTimer(q: Queue, waiting: seq<Timer>, now: int, script: Script, k: nat, s: nat)
    requires Agrees(q, waiting) && s < q.nextSequence && s in Batch(q, waiting, now, script, k).active
    ensures var i := IndexOf(waiting, s);
      var left := Batch(q, waiting, now, script, k).active[s];
      if i == |waiting| then s in q.active && left == q.active[s]
      else waiting[i].interval > 0.0 && left == waiting[i].Restarted(now)
    decreases |waiting|
  {
    hide Agrees, ApplyAll, Cancels, CancelledBetween;
    if waiting != [] {
      var r := Rearm(q, waiting[0], now);
      SurvivesCallback(r, script(k), s);
      FireKeepsAgreement(q, waiting, now, script(k));
      OneTurnEach(q, waiting, s);
      BatchKeepsTimer(Fire(q, waiting[0], now, script(k)), waiting[1..], now, script, k + 1, s);
      if IndexOf(waiting[1..], s) == |waiting| - 1 { CallbackKeepsTimer(r, script(k), s); }
    }
  }

  lemma NothingBetween(script: Script, k: nat, s: nat)
    ensures !CancelledBetween(script, k, k, s)
  {}

  lemma OneTurnEach(q: Queue, waiting: seq<Timer>, s: nat)
    requires Agrees(q, waiting) && waiting != []
    ensures waiting[0].sequence == s ==> IndexOf(waiting[1..], s) == |waiting| - 1
  {}

  // -------------------------------------------------------- the firing log

  /** Two firings of one timer: it repeats, and they are an interval apart, in nanoseconds
      and but for one that is not full. */
  predicate Spaced(f: Timer, t: Timer) {
    && f.interval > 0.0 && t.interval == f.interval
    && (t.expiration - f.expiration) as real > f.interval * 1_000_000_000.0 - 1.0
  }

  /** The expiration of a timer that was put back at time now: one interval later, in whole
      nanoseconds. */
  predicate OneIntervalAfter(t: Timer, expiration: int, now: int) {
    && t.interval > 0.0
    && t.interval * 1_000_000_000.0 - 1.0 < (expiration - now) as real <= t.interval * 1_000_000_000.0
  }

  lemma RestartIsOneIntervalAfter(t: Timer, now: int)
    requires t.Repeats()
    ensures OneIntervalAfter(t, t.Restarted(now).expiration, now)
  {}

  predicate SpacedLog(fired: seq<Timer>) {
    forall i, j :: 0 <= i < j < |fired| && fired[i].sequence == fired[j].sequence ==> Spaced(fired[i], fired[j])
  }

  /** Each firing is recorded as the timer that was due; whatever is registered or still
      to be run under the same number is a later firing of a repeating timer. */
  predicate LogFits(q: Queue, waiting: seq<Timer>, fired: seq<Timer>) {
    && SpacedLog(fired)
    && (forall f :: f in fired ==> f.sequence < q.nextSequence && f.sequence !in q.posted)
    && (forall f, t :: f in fired && t in waiting && t.sequence == f.sequence ==> Spaced(f, t))
    && (forall f :: f in fired && f.sequence in q.active ==> Spaced(f, q.active[f.sequence]))
  }

  lemma {:induction false} CallbackKeepsLog(q: Queue, ops: seq<Op>, waiting: seq<Timer>, fired: seq<Timer>)
    requires LogFits(q, waiting, fired)
    ensures LogFits(ApplyAll(q, ops), waiting, fired)
    decreases |ops|
  {
    if ops != [] {
      hide InsertEntry, EraseEntry, SpacedLog, Spaced;
      CallbackKeepsLog(Apply(q, ops[0]), ops[1..], waiting, fired);
    }
  }

  lemma FiringExtendsLog(q: Queue, waiting: seq<Timer>, fired: seq<Timer>)
    requires waiting != [] && Agrees(q, waiting) && LogFits(q, waiting, fired)
    ensures SpacedLog(fired + [waiting[0]])
  {
    var log := fired + [waiting[0]];
    assert waiting[0] in waiting;
    forall i, j | 0 <= i < j < |log| && log[i].sequence == log[j].sequence ensures Spaced(log[i], log[j]) {
      assert log[i] == fired[i] && fired[i] in fired;
    }
  }

  lemma RearmKeepsLog(q: Queue, waiting: seq<Timer>, now: int, fired: seq<Timer>)
    requires waiting != [] && Agrees(q, waiting) && LogFits(q, waiting, fired) && waiting[0].expiration <= now
    ensures LogFits(Rearm(q, waiting[0], now), waiting[1..], fired + [waiting[0]])
  {
    hide InsertEntry;
    var t, rest := waiting[0], waiting[1..];
    FiringExtendsLog(q, waiting, fired);
    RestAgrees(q, waiting);
    assert forall w :: w in waiting <==> w == t || w in rest;
    assert forall f :: f in fired + [t] <==> f in fired || f == t;
  }

  lemma FireKeepsLog(q: Queue, waiting: seq<Timer>, now: int, ops: seq<Op>, fired: seq<Timer>)
    requires waiting != [] && Agrees(q, waiting) && LogFits(q, waiting, fired) && waiting[0].expiration <= now
    ensures LogFits(Fire(q, waiting[0], now, ops), waiting[1..], fired + [waiting[0]])
  {
    hide LogFits, Agrees, Rearm;
    RearmKeepsLog(q, waiting, now, fired);
    CallbackKeepsLog(Rearm(q, waiting[0], now), ops, waiting[1..], fired + [waiting[0]]);
  }

  // ----------------------------------------------------- what a batch takes

  /** The timers due at `now`, in firing order. */
  function Due(es: seq<Entry>, now: int): (due: seq<Timer>)
    ensures |due| <= |es|
  {
    if es == [] || es[0].when > now then [] else [es[0].timer] + Due(es[1..], now)
  }

  /** Due timers are exactly the entries not later than now; taking them out of the set
      leaves a queue that agrees up to them. */
  lemma {:induction false} DueTimers(es: seq<Entry>, now: int)
    requires Sorted(es)
    ensures forall i :: 0 <= i < |Due(es, now)| ==> Due(es, now)[i] == es[i].timer && es[i].when <= now
    ensures forall i :: |Due(es, now)| <= i < |es| ==> es[i].when > now
  {
    if es != [] && es[0].when <= now {
      DueTimers(es[1..], now);
    }
  }

  lemma Regroup(a: seq<Timer>, t: Timer, b: seq<Timer>)
    ensures a + ([t] + b) == (a + [t]) + b
  {}

  lemma DueStep(es: seq<Entry>, now: int)
    ensures Due(es, now) == if es == [] || es[0].when > now then [] else [es[0].timer] + Due(es[1..], now)
  {}

  function WithoutDue(q: Queue, now: int): Queue {
    q.(entries := q.entries[|Due(q.entries, now)|..])
  }

  /** Firing order: by expiration, and by number among equal ones. */
  predicate InFiringOrder(ts: seq<Timer>) {
    forall i, j :: 0 <= i < j < |ts| ==>
      ts[i].expiration < ts[j].expiration || (ts[i].expiration == ts[j].expiration && ts[i].sequence < ts[j].sequence)
  }

  lemma DueInFiringOrder(q: Queue, now: int)
    requires Agrees(q, [])
    ensures InFiringOrder(Due(q.entries, now))
  {
    DueTimers(q.entries, now);
    var due := Due(q.entries, now);
    forall i | 0 <= i < |due| ensures due[i].expiration == q.entries[i].when && due[i].sequence == q.entries[i].sequence {
      assert q.entries[i] in q.entries;
    }
    assert forall i, j :: 0 <= i < j < |due| ==> Before(q.entries[i], q.entries[j]);
  }

  /** Each due timer is registered, and has an entry in the part that is taken out. */
  lemma DueAreRegistered(q: Queue, now: int)
    requires Agrees(q, [])
    ensures var due := Due(q.entries, now);
      forall t :: t in due ==> t.expiration <= now && t.sequence in q.active && t == q.active[t.sequence]
  {
    DueTimers(q.entries, now);
    var due := Due(q.entries, now);
    forall t | t in due ensures t.expiration <= now && t.sequence in q.active && t == q.active[t.sequence] {
      var i :| 0 <= i < |due| && due[i] == t;
      assert q.entries[i] in q.entries;
    }
  }

  lemma EntryIsDueOrStays(q: Queue, now: int, e: Entry)
    requires Agrees(q, []) && e in q.entries
    ensures e in WithoutDue(q, now).entries || e.timer in Due(q.entries, now)
  {
    DueTimers(q.entries, now);
    var n := |Due(q.entries, now)|;
    assert q.entries == q.entries[..n] + q.entries[n..];
    if e !in q.entries[n..] {
      var i :| 0 <= i < n && q.entries[..n][i] == e;
      assert Due(q.entries, now)[i] == e.timer;
    }
  }

  lemma DueHaveLeft(q: Queue, now: int)
    requires Agrees(q, [])
    ensures var due, rest := Due(q.entries, now), WithoutDue(q, now).entries;
      && Sorted(rest) && (forall e :: e in rest ==> e in q.entries)
      && (forall e, t :: e in rest && t in due ==> e.sequence != t.sequence)
      && (forall i, j :: 0 <= i < j < |due| ==> due[i].sequence != due[j].sequence)
  {
    hide Due;
    var due, n := Due(q.entries, now), |Due(q.entries, now)|;
    DueTimers(q.entries, now);
    NumbersDiffer(q);
    DueNumbers(q, now);
    hide Agrees, Sorted;
    SortedTail(q.entries, n);
    forall e, t | e in q.entries[n..] && t in due ensures e.sequence != t.sequence {
      var i :| 0 <= i < n && due[i] == t;
      var j :| 0 <= j < |q.entries| - n && q.entries[n..][j] == e;
      assert q.entries[n + j] == e;
    }
  }

  lemma SortedTail(es: seq<Entry>, n: nat)
    requires n <= |es|
    ensures Sorted(es) ==> Sorted(es[n..])
  {}

  lemma NumbersDiffer(q: Queue)
    requires Agrees(q, [])
    ensures forall i, j :: 0 <= i < j < |q.entries| ==> q.entries[i].sequence != q.entries[j].sequence
  {
    forall i, j | 0 <= i < j < |q.entries| ensures q.entries[i].sequence != q.entries[j].sequence {
      assert q.entries[i] in q.entries && q.entries[j] in q.entries;
      assert Before(q.entries[i], q.entries[j]);
    }
  }

  lemma DueNumbers(q: Queue, now: int)
    requires Agrees(q, [])
    ensures forall i :: 0 <= i < |Due(q.entries, now)| ==> Due(q.entries, now)[i].sequence == q.entries[i].sequence
  {
    DueTimers(q.entries, now);
    forall i | 0 <= i < |Due(q.entries, now)|
      ensures Due(q.entries, now)[i].sequence == q.entries[i].sequence
    {
      assert q.entries[i] in q.entries;
    }
  }

  /** Taking the due timers out of the set leaves a queue that agrees up to them. */
  lemma PoppingAgrees(q: Queue, now: int, fired: seq<Timer>)
    requires Agrees(q, []) && LogFits(q, [], fired)
    ensures Agrees(WithoutDue(q, now), Due(q.entries, now))
    ensures LogFits(WithoutDue(q, now), Due(q.entries, now), fired)
  {
    DueAreRegistered(q, now);
    DueHaveLeft(q, now);
    forall s | s in q.active
      ensures EntryOf(q.active[s]) in WithoutDue(q, now).entries || q.active[s] in Due(q.entries, now)
    {
      EntryIsDueOrStays(q, now, EntryOf(q.active[s]));
    }
  }

  /** The log after a whole batch. */
  lemma {:induction false} BatchKeepsLog(q: Queue, waiting: seq<Timer>, now: int, script: Script, k: nat, fired: seq<Timer>)
    requires Agrees(q, waiting) && LogFits(q, waiting, fired) && forall t :: t in waiting ==> t.expiration <= now
    ensures LogFits(Batch(q, waiting, now, script, k), [], fired + waiting)
    decreases |waiting|
  {
    hide Agrees, LogFits, Fire;
    if waiting == [] {
      assert fired + [] == fired;
    } else {
      var t := waiting[0];
      assert t in waiting && forall w :: w in waiting[1..] ==> w in waiting;
      FireKeepsAgreement(q, waiting, now, script(k));
      FireKeepsLog(q, waiting, now, script(k), fired);
      BatchKeepsLog(Fire(q, t, now, script(k)), waiting[1..], now, script, k + 1, fired + [t]);
      assert (fired + [t]) + waiting[1..] == fired + waiting;
    }
  }

  /** Numbers are only drawn, and no batch inserts a posted timer. */
  predicate KeepsPosted(q: Queue, r: Queue) {
    q.nextSequence <= r.nextSequence && forall s: nat :: s < q.nextSequence ==> (s in q.posted <==> s in r.posted)
  }

  lemma KeepsPostedTwice(q: Queue, r: Queue, t: Queue)
    requires KeepsPosted(q, r) && KeepsPosted(r, t)
    ensures KeepsPosted(q, t)
  {}

  lemma {:induction false} BatchKeepsPosted(q: Queue, waiting: seq<Timer>, now: int, script: Script, k: nat)
    ensures KeepsPosted(q, Batch(q, waiting, now, script, k))
    decreases |waiting|
  {
    if waiting != [] {
      OpsKeepPosted(Rearm(q, waiting[0], now), script(k));
      BatchKeepsPosted(Fire(q, waiting[0], now, script(k)), waiting[1..], now, script, k + 1);
    }
  }

  lemma {:induction false} OpsKeepPosted(q: Queue, ops: seq<Op>)
    ensures KeepsPosted(q, ApplyAll(q, ops))
    decreases |ops|
  {
    if ops != [] { OpsKeepPosted(Apply(q, ops[0]), ops[1..]); }
  }

  /** After a batch every due timer that is left expires one interval after `now`, and every
      other timer that is left is what it was. */
  predicate TimesAreRight(q: Queue, due: seq<Timer>, b: Queue, now: int) {
    && (forall t :: t in due && t.sequence in b.active ==>
          OneIntervalAfter(t, b.active[t.sequence].expiration, now) && b.active[t.sequence].interval == t.interval)
    && (forall s: nat :: s < q.nextSequence && s in b.active && (forall t :: t in due ==> t.sequence != s) ==>
          s in q.active && b.active[s] == q.active[s])
  }

  lemma TimesOfBatch(q: Queue, now: int, script: Script, k: nat)
    requires Agrees(q, [])
    ensures var due := Due(q.entries, now);
      TimesAreRight(q, due, Batch(WithoutDue(q, now), due, now, script, k), now)
  {
    hide Batch, Due;
    var due, p := Due(q.entries, now), WithoutDue(q, now);
    var b := Batch(p, due, now, script, k);
    PoppingKeepsIndexes(q, now);
    forall t | t in due && t.sequence in b.active
      ensures OneIntervalAfter(t, b.active[t.sequence].expiration, now) && b.active[t.sequence].interval == t.interval
    {
      OwnTurn(p, due, t);
      BatchKeepsTimer(p, due, now, script, k, t.sequence);
      RestartIsOneIntervalAfter(t, now);
    }
    forall s: nat | s < q.nextSequence && s in b.active && forall t :: t in due ==> t.sequence != s
      ensures s in q.active && b.active[s] == q.active[s]
    {
      NotWaiting(due, s);
      BatchKeepsTimer(p, due, now, script, k, s);
    }
  }

  lemma TurnKeepsTimer(q: Queue, waiting: seq<Timer>, now: int, ops: seq<Op>)
    requires waiting != [] && Agrees(q, waiting)
    ensures var f, t := Fire(q, waiting[0], now, ops), waiting[0];
      t.sequence in f.active ==> OneIntervalAfter(t, f.active[t.sequence].expiration, now)
  {
    var f, t := Fire(q, waiting[0], now, ops), waiting[0];
    assert t in waiting;
    if t.sequence in f.active {
      hide ApplyAll, Agrees;
      CallbackKeepsTimer(Rearm(q, t, now), ops, t.sequence);
      if t.Repeats() { RestartIsOneIntervalAfter(t, now); }
    }
  }

  lemma PoppingKeepsIndexes(q: Queue, now: int)
    requires Agrees(q, [])
    ensures Agrees(WithoutDue(q, now), Due(q.entries, now))
    ensures WithoutDue(q, now).active == q.active && WithoutDue(q, now).nextSequence == q.nextSequence
  {
    EmptyLogFits(q);
    PoppingAgrees(q, now, []);
  }

  lemma EmptyLogFits(q: Queue)
    ensures LogFits(q, [], [])
  {}

  lemma OwnTurn(q: Queue, waiting: seq<Timer>, t: Timer)
    requires Agrees(q, waiting) && t in waiting
    ensures t.sequence < q.nextSequence
    ensures var i := IndexOf(waiting, t.sequence); i < |waiting| && waiting[i] == t
  {
    var j :| 0 <= j < |waiting| && waiting[j] == t;
    var i := IndexOf(waiting, t.sequence);
    assert i <= j && waiting[i].sequence == waiting[j].sequence;
  }

  /** All that is known of a batch, from the queue on entry. */
  lemma BatchFacts(q: Queue, now: int, script: Script, fired: seq<Timer>)
    requires Agrees(q, []) && LogFits(q, [], fired)
    ensures forall t :: t in Due(q.entries, now) ==> t.sequence in q.active
    ensures var due, p := Due(q.entries, now), WithoutDue(q, now);
      var b := Batch(p, due, now, script, |fired|);
      && Agrees(p, due) && Agrees(b, []) && LogFits(b, [], fired + due) && KeepsPosted(q, b)
      && InFiringOrder(due) && TimesAreRight(q, due, b, now)
      && forall s: nat :: s < q.nextSequence ==> (s in b.active <==> Survives(p, due, script, |fired|, s))
  {
    DueInFiringOrder(q, now);
    TimesOfBatch(q, now, script, |fired|);
    hide Agrees, LogFits, Survives, WithoutDue, Batch, KeepsPosted, InFiringOrder, TimesAreRight;
    PoppingAgrees(q, now, fired);
    DueAreRegistered(q, now);
    PoppedKeepsNumbers(q, now);
    var due, p := Due(q.entries, now), WithoutDue(q, now);
    BatchKeepsAgreement(p, due, now, script, |fired|);
    BatchKeepsLog(p, due, now, script, |fired|, fired);
    BatchKeepsPosted(p, due, now, script, |fired|);
    KeepsPostedTwice(q, p, Batch(p, due, now, script, |fired|));
    forall s: nat | s < q.nextSequence
      ensures s in Batch(p, due, now, script, |fired|).active <==> Survives(p, due, script, |fired|, s)
    {
      SurvivesBatch(p, due, now, script, |fired|, s);
    }
  }

  lemma PoppedKeepsNumbers(q: Queue, now: int)
    ensures WithoutDue(q, now).nextSequence == q.nextSequence && WithoutDue(q, now).active == q.active
    ensures KeepsPosted(q, WithoutDue(q, now))
  {}

  /** A timer that is not registered is not due either, and no batch brings it back. */
  lemma UnregisteredStayOut(q: Queue, now: int, script: Script, k: nat)
    requires Agrees(q, [])
    ensures forall s: nat :: s !in q.active ==> !Survives(WithoutDue(q, now), Due(q.entries, now), script, k, s)
  {
    DueAreRegistered(q, now);
    forall s: nat | s !in q.active ensures !Survives(WithoutDue(q, now), Due(q.entries, now), script, k, s) {
      NotWaiting(Due(q.entries, now), s);
    }
  }

  lemma {:induction false} NotWaiting(waiting: seq<Timer>, s: nat)
    requires forall t :: t in waiting ==> t.sequence != s
    ensures IndexOf(waiting, s) == |waiting|
  {
    if waiting != [] { NotWaiting(waiting[1..], s); }
  }

  // ------------------------------------------------------------- whole runs

  /** The queue between batches, with the log of every timer run so far as it was when due. */
  datatype Moment = Moment(queue: Queue, fired: seq<Timer>)

  predicate AtRest(m: Moment) { Agrees(m.queue, []) && LogFits(m.queue, [], m.fired) }

  /** What the loop does between batches, or a batch; `Arrive` is the posted task of a timer
      that another thread created. */
  datatype Call = Do(op: Op) | Arrive(sequence: nat) | Expire(now: int)

  function Turn(m: Moment, call: Call, script: Script): (n: Moment)
    ensures m.fired <= n.fired
  {
    match call
    case Do(op) => m.(queue := Apply(m.queue, op))
    case Arrive(s) => m.(queue := InsertPosted(m.queue, s))
    case Expire(now) =>
      var due := Due(m.queue.entries, now);
      Moment(Batch(WithoutDue(m.queue, now), due, now, script, |m.fired|), m.fired + due)
  }

  function After(m: Moment, calls: seq<Call>, script: Script): (n: Moment)
    ensures m.fired <= n.fired
    decreases |calls|
  {
    if calls == [] then m else After(Turn(m, calls[0], script), calls[1..], script)
  }

  /** Neither registered nor on its way, although its number has been drawn. */
  predicate Gone(q: Queue, s: nat) { s < q.nextSequence && s !in q.active && s !in q.posted }

  ghost predicate StayGone(m: Moment, n: Moment) {
    && m.fired <= n.fired && m.queue.nextSequence <= n.queue.nextSequence
    && (forall s: nat :: Gone(m.queue, s) ==> Gone(n.queue, s))
    && forall f :: f in n.fired[|m.fired|..] ==> !Gone(m.queue, f.sequence)
  }

  lemma StayGoneTwice(m: Moment, n: Moment, o: Moment)
    requires StayGone(m, n) && StayGone(n, o)
    ensures StayGone(m, o)
  {
    assert o.fired[|m.fired|..] == n.fired[|m.fired|..] + o.fired[|n.fired|..];
  }

  lemma BatchTurn(m: Moment, now: int, script: Script)
    requires AtRest(m)
    ensures var n := Turn(m, Expire(now), script); AtRest(n) && StayGone(m, n)
  {
    hide Agrees, LogFits, Survives, Batch;
    var q := m.queue;
    BatchFacts(q, now, script, m.fired);
    UnregisteredStayOut(q, now, script, |m.fired|);
    var n := Turn(m, Expire(now), script);
    assert n.fired[|m.fired|..] == Due(q.entries, now);
  }

  lemma OpTurn(m: Moment, op: Op, script: Script)
    requires AtRest(m)
    ensures var n := Turn(m, Do(op), script); AtRest(n) && StayGone(m, n)
  {
    ApplyKeepsAgreement(m.queue, op, []);
    CallbackKeepsLog(m.queue, [op], [], m.fired);
    OpsKeepPosted(m.queue, [op]);
    assert [op][1..] == [] && m.fired[|m.fired|..] == [];
    hide Agrees, LogFits, Apply;
    forall s: nat | Gone(m.queue, s) ensures Gone(Apply(m.queue, op), s) {
      SurvivesCallback(m.queue, [op], s);
    }
  }

  lemma ArrivalTurn(m: Moment, s: nat, script: Script)
    requires AtRest(m)
    ensures var n := Turn(m, Arrive(s), script); AtRest(n) && StayGone(m, n)
  {
    hide InsertEntry;
    InsertPostedKeepsAgreement(m.queue, s, []);
    assert m.fired[|m.fired|..] == [];
  }

  lemma TurnKeepsRest(m: Moment, call: Call, script: Script)
    requires AtRest(m)
    ensures AtRest(Turn(m, call, script)) && StayGone(m, Turn(m, call, script))
  {
    hide AtRest, StayGone, Turn;
    match call
    case Do(op) => OpTurn(m, op, script);
    case Arrive(s) => ArrivalTurn(m, s, script);
    case Expire(now) => BatchTurn(m, now, script);
  }

  /** FIRING OVER WHOLE RUNS, for any calls between batches, any clock readings and any
      callbacks: the indexes agree, a one-shot fires at most once, successive firings of a
      repeating timer are at least one interval apart, and a timer that is neither
      registered nor posted never fires again. */
  lemma {:induction false} RunKeepsRest(m: Moment, calls: seq<Call>, script: Script)
    requires AtRest(m)
    ensures var n := After(m, calls, script); AtRest(n) && StayGone(m, n) && SpacedLog(n.fired)
    decreases |calls|
  {
    if calls == [] {
      assert m.fired[|m.fired|..] == [];
    } else {
      hide AtRest, StayGone, Turn, SpacedLog;
      TurnKeepsRest(m, calls[0], script);
      RunKeepsRest(Turn(m, calls[0], script), calls[1..], script);
      StayGoneTwice(m, Turn(m, calls[0], script), After(m, calls, script));
    }
  }

  // ------------------------------------------------- what a cancel achieves

  ghost predicate FiresIn(m: Moment, calls: seq<Call>, script: Script, s: nat) {
    exists f :: f in After(m, calls, script).fired[|m.fired|..] && f.sequence == s
  }

  ghost predicate NeverFires(m: Moment, s: nat) {
    forall calls, script :: !FiresIn(m, calls, script, s)
  }

  lemma RegisteredIsDue(q: Queue, s: nat)
    requires Agrees(q, []) && s in q.active
    ensures q.active[s] in Due(q.entries, q.active[s].expiration) && q.active[s].sequence == s
  {
    var now := q.active[s].expiration;
    EntryIsDueOrStays(q, now, EntryOf(q.active[s]));
    DueTimers(q.entries, now);
    assert forall e :: e in WithoutDue(q, now).entries ==> e.when > now;
  }

  lemma ExpiryFires(m: Moment, now: int, script: Script)
    ensures var n := After(m, [Expire(now)], script);
      n.fired == m.fired + Due(m.queue.entries, now) && n.fired[|m.fired|..] == Due(m.queue.entries, now)
  {
    hide Batch, Due, WithoutDue;
    assert [Expire(now)][1..] == [];
  }

  lemma RegisteredCanFire(m: Moment, s: nat, script: Script)
    requires AtRest(m) && s in m.queue.active
    ensures FiresIn(m, [Expire(m.queue.active[s].expiration)], script, s)
  {
    RegisteredIsDue(m.queue, s);
    ExpiryFires(m, m.queue.active[s].expiration, script);
    hide Agrees, LogFits, After, Due;
  }

  lemma PostedCanFire(m: Moment, s: nat, script: Script)
    requires AtRest(m) && s in m.queue.posted
    ensures FiresIn(m, [Arrive(s), Expire(m.queue.posted[s].expiration)], script, s)
  {
    hide AtRest, StayGone;
    var calls := [Arrive(s), Expire(m.queue.posted[s].expiration)];
    var n := Turn(m, Arrive(s), script);
    assert calls[1..] == [Expire(m.queue.posted[s].expiration)];
    ArrivalTurn(m, s, script);
    ArrivedIsRegistered(m, s);
    RegisteredCanFire(n, s, script);
  }

  lemma ArrivedIsRegistered(m: Moment, s: nat)
    requires AtRest(m) && s in m.queue.posted
    ensures s in InsertPosted(m.queue, s).active && InsertPosted(m.queue, s).active[s] == m.queue.posted[s]
  {}

  /** A timer whose number has been drawn never fires from now on, in any run, if and only
      if it is neither registered nor posted. */
  lemma NeverFiresIsExact(m: Moment, s: nat)
    requires AtRest(m) && s < m.queue.nextSequence
    ensures NeverFires(m, s) <==> s !in m.queue.active && s !in m.queue.posted
  {
    var quiet: Script := k => [];
    if s in m.queue.active {
      RegisteredCanFire(m, s, quiet);
    } else if s in m.queue.posted {
      PostedCanFire(m, s, quiet);
    } else {
      hide AtRest;
      assert Gone(m.queue, s);
      forall calls, script ensures !FiresIn(m, calls, script, s) {
        RunKeepsRest(m, calls, script);
      }
    }
  }

  /** A CANCEL OUTSIDE A BATCH TAKES EFFECT if and only if the timer is registered at that
      moment. One still on its way from another thread is not found, arrives and fires. */
  lemma CancelIsExact(m: Moment, s: nat, script: Script)
    requires AtRest(m) && (s in m.queue.active || s in m.queue.posted)
    ensures var c := Turn(m, Do(Cancel(s, true)), script);
      && (NeverFires(c, s) <==> s in m.queue.active)
      && (s !in m.queue.active ==> c == m)
      && Turn(m, Do(Cancel(s, false)), script) == m
  {
    hide NeverFires;
    OpTurn(m, Cancel(s, true), script);
    var c := Turn(m, Do(Cancel(s, true)), script);
    assert s in c.queue.posted <==> s in m.queue.posted;
    assert s !in c.queue.active && s < c.queue.nextSequence;
    assert s in m.queue.active ==> s !in m.queue.posted;
    NeverFiresIsExact(c, s);
  }

  /** The input: created on another thread, cancelled on the loop thread before the posted
      insertion arrives, and fired nevertheless - in every queue and with any callbacks. */
  lemma OvertakingCancelIsLost(m: Moment, when: int, script: Script)
    requires AtRest(m)
    ensures var s := m.queue.nextSequence;
      FiresIn(m, [Do(Create(when, 0.0)), Do(Cancel(s, true)), Arrive(s), Expire(when)], script, s)
  {
    hide FiresIn;
    var s := m.queue.nextSequence;
    var tail := [Arrive(s), Expire(when)];
    var n := Turn(m, Do(Create(when, 0.0)), script);
    var c := Turn(n, Do(Cancel(s, true)), script);
    OpTurn(m, Create(when, 0.0), script);
    assert s !in n.queue.active && c == n && n.queue.posted[s].expiration == when && n.fired == m.fired;
    PostedCanFire(n, s, script);
    var calls := [Do(Create(when, 0.0)), Do(Cancel(s, true))] + tail;
    assert calls[1..][1..] == tail && calls == [Do(Create(when, 0.0)), Do(Cancel(s, true)), Arrive(s), Expire(when)];
    TwoTurns(m, calls, script);
    SameFirings(m, n, calls, tail, script, s);
  }

  lemma TwoTurns(m: Moment, calls: seq<Call>, script: Script)
    requires |calls| >= 2
    ensures After(m, calls, script) == After(Turn(Turn(m, calls[0], script), calls[1], script), calls[1..][1..], script)
  {}

  lemma SameFirings(m: Moment, n: Moment, calls: seq<Call>, tail: seq<Call>, script: Script, s: nat)
    requires After(m, calls, script) == After(n, tail, script) && m.fired == n.fired
    ensures FiresIn(m, calls, script, s) <==> FiresIn(n, tail, script, s)
  {}

  // ------------------------------------------------------------- the object

  const MAX_TIMEOUT_MS: int := 24 * 60 * 60 * 1000

  /** How long epoll_wait may sleep: -1 without timers, else whole milliseconds, at most a
      day, and never past the earliest expiration. */
  function NextTimeoutMs(es: seq<Entry>, now: int): (ms: int)
    requires Sorted(es)
    ensures ms == -1 <==> es == []
    ensures es != [] ==> 0 <= ms <= MAX_TIMEOUT_MS
    ensures ms > 0 ==> forall e :: e in es ==> now + ms * 1_000_000 <= e.when
    ensures ms == 0 <==> es != [] && es[0].when < now + 1_000_000
  {
    if es == [] then -1
    else
      assert forall e :: e in es ==> es[0].when <= e.when;
      if es[0].when <= now then 0
      else
        var ms := (es[0].when - now) / 1_000_000;
        if ms <= MAX_TIMEOUT_MS then ms else MAX_TIMEOUT_MS
  }

  class TimerQueue {
    var entries: seq<Entry>
    var active: map<nat, Timer>
    var posted: map<nat, Timer> // captured by the tasks posted to the loop
    var nextSequence: nat       // the counter in Timer.cpp
    var fired: seq<Timer>       // history: every timer run so far, as it was when due

    ghost function View(): Queue
      reads this
    {
      Queue(entries, active, posted, nextSequence)
    }

    /** At rest the set and the map hold the same timers, each under its current expiration
        and number, and the log shows no timer firing out of turn. */
    ghost predicate Valid()
      reads this
    {
      AtRest(Now())
    }

    ghost function Now(): Moment
      reads this
    {
      Moment(View(), fired)
    }

    constructor (counter: nat)
      ensures Valid() && fired == [] && View() == Queue([], map[], map[], counter)
    {
      entries, active, posted, nextSequence, fired := [], map[], map[], counter, [];
    }

    method InsertInLoop(t: Timer)
      modifies this`entries, this`active
      ensures View() == Insert(old(View()), t)
    {
      active := active[t.sequence := t];
      entries := InsertEntry(entries, Entry(t.expiration, t.sequence, t));
    }

    method CancelInLoop(sequence: nat, own: bool)
      requires sequence in active ==> active[sequence].sequence == sequence
      modifies this`entries, this`active
      ensures View() == Apply(old(View()), Cancel(sequence, own))
    {
      if !own {
        return;
      }
      if sequence !in active {
        return;
      }
      var timer := active[sequence];
      active := active - {sequence};
      entries := EraseEntry(entries, timer.expiration, timer.sequence);
    }

    /** addTimer: the number is drawn here; the insertion is done at once on the loop thread
        and posted on any other. */
    method AddTimer(when: int, interval: real, inLoopThread: bool) returns (sequence: nat)
      requires nextSequence !in posted
      modifies this`entries, this`active, this`posted, this`nextSequence
      ensures View() == Apply(old(View()), if inLoopThread then Add(when, interval) else Create(when, interval))
      ensures sequence == old(nextSequence)
      ensures if inLoopThread then sequence in active && active[sequence] == Timer(sequence, when, interval)
              else sequence in posted && posted[sequence] == Timer(sequence, when, interval)
    {
      sequence := nextSequence;
      nextSequence := nextSequence + 1;
      var timer := Timer(sequence, when, interval);
      if inLoopThread {
        InsertInLoop(timer);
        assert posted[sequence := timer] - {sequence} == posted;
      } else {
        posted := posted[sequence := timer];
      }
    }

    /** The posted task of a timer created on another thread. */
    method RunInsertion(sequence: nat)
      modifies this`entries, this`active, this`posted
      ensures View() == InsertPosted(old(View()), sequence)
      ensures sequence !in posted
      ensures sequence in old(posted) ==>
        var timer := old(posted)[sequence]; timer.sequence in active && active[timer.sequence] == timer
    {
      if sequence in posted {
        var timer := posted[sequence];
        posted := posted - {sequence};
        InsertInLoop(timer);
      }
    }

    /** A callback: the calls made by it, and on other threads meanwhile, one after the other. */
    method RunCallback(ops: seq<Op>, ghost waiting: seq<Timer>)
      requires Agrees(View(), waiting)
      modifies this`entries, this`active, this`posted, this`nextSequence
      ensures View() == ApplyAll(old(View()), ops) && Agrees(View(), waiting)
    {
      hide Apply;
      ghost var goal := ApplyAll(View(), ops);
      var left := ops;
      while left != []
        invariant ApplyAll(View(), left) == goal && Agrees(View(), waiting)
        decreases |left|
      {
        ApplyKeepsAgreement(View(), left[0], waiting);
        match left[0] {
          case Add(when, interval) => var _ := AddTimer(when, interval, true);
          case Create(when, interval) => var _ := AddTimer(when, interval, false);
          case Cancel(sequence, own) => CancelInLoop(sequence, own);
        }
        left := left[1..];
      }
    }

    /** The first loop of handleExpiredTimers. */
    method TakeDue(now: int) returns (expired: seq<Timer>)
      modifies this`entries
      ensures expired == Due(old(entries), now)
      ensures View() == WithoutDue(old(View()), now)
    {
      hide Due;
      ghost var was := entries;
      expired := [];
      assert was[0..] == was && [] + Due(was, now) == Due(was, now);
      while entries != [] && entries[0].when <= now
        invariant |expired| <= |was| && entries == was[|expired|..]
        invariant Due(was, now) == expired + Due(entries, now)
        decreases |entries|
      {
        DueStep(entries, now);
        assert was[|expired|..][1..] == was[|expired| + 1..];
        Regroup(expired, entries[0].timer, Due(entries[1..], now));
        expired := expired + [entries[0].timer];
        entries := entries[1..];
      }
      DueStep(entries, now);
      assert expired + [] == expired;
    }

    /** One turn of the second loop. */
    method FireTimer(timer: Timer, now: int, ops: seq<Op>, ghost waiting: seq<Timer>)
      requires waiting != [] && timer == waiting[0] && Agrees(View(), waiting)
      modifies this
      ensures View() == Fire(old(View()), timer, now, ops) && Agrees(View(), waiting[1..])
      ensures fired == old(fired) + [timer]
      ensures timer.sequence in active ==> OneIntervalAfter(timer, active[timer.sequence].expiration, now)
    {
      RearmKeepsAgreement(View(), waiting, now);
      TurnKeepsTimer(View(), waiting, now, ops);
      if timer.Repeats() {
        InsertInLoop(timer.Restarted(now));
      } else {
        active := active - {timer.sequence};
      }
      fired := fired + [timer];
      RunCallback(ops, waiting[1..]);
    }

    /** FIRING DISCIPLINE. Callbacks may add and cancel timers at will; still the batch runs
        exactly the timers due on entry, once each and in (when, sequence) order, the
        indexes agree again afterwards, and which timers are left is decided by `Survives`. */
    method HandleExpiredTimers(now: int, script: Script)
      requires Valid()
      modifies this
      ensures Valid()
      ensures fired == old(fired) + Due(old(entries), now)
      ensures Now() == Turn(old(Now()), Expire(now), script)
      ensures InFiringOrder(Due(old(entries), now))
      ensures TimesAreRight(old(View()), Due(old(entries), now), View(), now)
      ensures KeepsPosted(old(View()), View())
      ensures forall t :: t in Due(old(entries), now) ==> t.sequence in old(active)
      ensures forall s: nat :: s < old(nextSequence) ==>
        (s in active <==> Survives(WithoutDue(old(View()), now), Due(old(entries), now), script, |old(fired)|, s))
    {
      hide Agrees, LogFits, Survives, WithoutDue, Batch, KeepsPosted, InFiringOrder, TimesAreRight;
      var callbacks := |fired|;
      BatchFacts(View(), now, script, fired);
      var expired := TakeDue(now);
      RunExpired(expired, now, script, callbacks);
    }

    /** The second loop of handleExpiredTimers. */
    method RunExpired(expired: seq<Timer>, now: int, script: Script, callbacks: nat)
      requires Agrees(View(), expired)
      modifies this
      ensures View() == Batch(old(View()), expired, now, script, callbacks)
      ensures fired == old(fired) + expired
    {
      hide Agrees, Fire;
      ghost var goal := Batch(View(), expired, now, script, callbacks);
      var i := 0;
      assert expired[0..] == expired && fired + [] == fired;
      while i < |expired|
        invariant 0 <= i <= |expired|
        invariant Agrees(View(), expired[i..])
        invariant Batch(View(), expired[i..], now, script, callbacks + i) == goal
        invariant fired == old(fired) + expired[..i]
      {
        FireTimer(expired[i], now, script(callbacks + i), expired[i..]);
        assert expired[i..][1..] == expired[i + 1..] && expired[..i] + [expired[i]] == expired[..i + 1];
        i := i + 1;
      }
      assert expired[..i] == expired;
    }

    method Step(call: Call, script: Script)
      requires Valid()
      modifies this
      ensures Valid() && Now() == Turn(old(Now()), call, script)
    {
      hide Agrees, LogFits, Batch, Apply, InsertPosted, WithoutDue;
      TurnKeepsRest(Now(), call, script);
      match call {
        case Do(op) =>
          assert [op][1..] == [];
          RunCallback([op], []);
        case Arrive(sequence) => RunInsertion(sequence);
        case Expire(now) => HandleExpiredTimers(now, script);
      }
    }

    /** Whole runs: the log of all firings shows that a one-shot fires at most once and that
        successive firings of a repeating timer are at least one interval apart; and a timer
        that is neither registered nor posted at the start of the run never fires in it. */
    method Run(calls: seq<Call>, script: Script)
      requires Valid()
      modifies this
      ensures Valid() && Now() == After(old(Now()), calls, script)
      ensures SpacedLog(fired) && old(fired) <= fired && old(nextSequence) <= nextSequence
      ensures forall s: nat :: s < old(nextSequence) && s !in old(active) && s !in old(posted) ==>
        s !in active && s !in posted
      ensures forall f :: f in fired[|old(fired)|..] ==>
        f.sequence >= old(nextSequence) || f.sequence in old(active) || f.sequence in old(posted)
    {
      ghost var start := Now();
      RunKeepsRest(start, calls, script);
      RunTurns(calls, script);
      assert forall s: nat :: s < start.queue.nextSequence && s !in start.queue.active && s !in start.queue.posted ==>
        Gone(start.queue, s);
    }

    method RunTurns(calls: seq<Call>, script: Script)
      requires Valid()
      modifies this
      ensures Valid() && Now() == After(old(Now()), calls, script)
    {
      hide AtRest, Turn;
      ghost var goal := After(Now(), calls, script);
      assert calls[0..] == calls;
      for i := 0 to |calls|
        invariant Valid() && After(Now(), calls[i..], script) == goal
      {
        assert calls[i..][0] == calls[i] && calls[i..][1..] == calls[i + 1..];
        Step(calls[i], script);
      }
    }
  }
}
