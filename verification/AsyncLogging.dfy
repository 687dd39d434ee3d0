/** The asynchronous log back end (src/log/AsyncLogging.cpp) over fixed-size buffers
    (include/myself/log/LogStream.h).

    Each method of AsyncLogging is one critical section, or one step of the background
    thread outside the lock; `Run` executes any interleaving of them. The source owns its
    buffers through unique_ptr, moved and never aliased, so a buffer is a value here, with
    an identity of its own to tell a reused buffer from a new one. */
module AsyncLogs {
  import opened Text

  /** What a buffer of `size` bytes holding `old` holds after an append: one byte is kept
      for the NUL, and text that does not fit is dropped without a trace. */
  function Appended(size: nat, old_: string, text: string): string {
    if |old_| + |text| + 1 < size then old_ + text else old_
  }

  class FixedBuffer {
    const data: array<char>
    var cur: nat

    ghost predicate Valid()
      reads this
    {
      cur < data.Length
    }

    /** The text written so far; a terminating NUL follows it. */
    ghost function Contents(): string
      reads this, data
      requires Valid()
    {
      data[..cur]
    }

    constructor (size: nat)
      requires size > 0
      ensures Valid() && Contents() == "" && data.Length == size && fresh(data)
    {
      data := new char[size];
      cur := 0;
    }

    function Length(): nat
      reads this
    {
      cur
    }

    function Avail(): nat
      reads this
      requires Valid()
    {
      data.Length - cur - 1
    }

    method Append(text: string)
      requires Valid()
      modifies this, data
      ensures Valid()
      ensures Contents() == Appended(data.Length, old(Contents()), text)
    {
      if Avail() > |text| {
        forall i | 0 <= i < |text| { data[cur + i] := text[i]; }
        cur := cur + |text|;
        data[cur] := '\0';
      }
    }

    method Reset()
      requires Valid()
      modifies this, data
      ensures Valid() && Contents() == ""
    {
      cur := 0;
      data[cur] := '\0';
    }
  }

  datatype Buffer = Buffer(id: nat, text: string)

  /** The text of a row of buffers, in order. */
  function Texts(bs: seq<Buffer>): string {
    if bs == [] then "" else bs[0].text + Texts(bs[1..])
  }

  lemma {:induction false} TextsAppend(xs: seq<Buffer>, ys: seq<Buffer>)
    ensures Texts(xs + ys) == Texts(xs) + Texts(ys)
  {
    if xs == [] {
      assert xs + ys == ys;
    } else {
      assert (xs + ys)[1..] == xs[1..] + ys;
      TextsAppend(xs[1..], ys);
    }
  }

  lemma TextsOne(b: Buffer)
    ensures Texts([b]) == b.text
  {
    assert [b][1..] == [];
    assert b.text + "" == b.text;
  }

  function Held(slot: Option<Buffer>): string {
    match slot case None => "" case Some(b) => b.text
  }

  /** How often the buffer `id` occurs. */
  function Count(bs: seq<Buffer>, id: nat): nat {
    if bs == [] then 0 else (if bs[0].id == id then 1 else 0) + Count(bs[1..], id)
  }

  function In(slot: Option<Buffer>, id: nat): nat {
    if slot.Some? && slot.value.id == id then 1 else 0
  }

  lemma {:induction false} CountAppend(xs: seq<Buffer>, ys: seq<Buffer>, id: nat)
    ensures Count(xs + ys, id) == Count(xs, id) + Count(ys, id)
    decreases |xs|
  {
    if xs == [] {
      assert xs + ys == ys;
    } else {
      assert (xs + ys)[1..] == xs[1..] + ys;
      CountAppend(xs[1..], ys, id);
    }
  }

  lemma PushedCounts(bs: seq<Buffer>, b: Buffer)
    ensures forall id :: Count(bs + [b], id) == Count(bs, id) + In(Some(b), id)
    ensures Texts(bs + [b]) == Texts(bs) + b.text
  {
    TextsAppend(bs, [b]);
    TextsOne(b);
    forall id ensures Count(bs + [b], id) == Count(bs, id) + In(Some(b), id) {
      CountAppend(bs, [b], id);
      assert [b][1..] == [];
    }
  }

  lemma PrefixCounts(bs: seq<Buffer>, n: nat)
    requires n <= |bs|
    ensures forall id :: Count(bs[..n], id) <= Count(bs, id)
  {
    assert bs == bs[..n] + bs[n..];
    forall id ensures Count(bs[..n], id) <= Count(bs, id) { CountAppend(bs[..n], bs[n..], id); }
  }

  lemma Regroup(a: string, b: string, c: string, d: string)
    ensures a + b + c + d == a + b + (c + d) && a + b + (c + d) + "" == a + b + (c + d)
  {}

  /** One step of any thread. */
  datatype Action = Append(text: string) | Flush | Swap | WriteOne | Recycle | Drain

  /** The message of an action, when it fits an empty buffer. */
  function Kept(action: Action, capacity: nat): string {
    if action.Append? && |action.text| + 1 < capacity then action.text else ""
  }

  /** The kept messages of a schedule, in lock order. */
  function Fitting(schedule: seq<Action>, capacity: nat): string {
    if schedule == [] then ""
    else Fitting(schedule[..|schedule| - 1], capacity) + Kept(schedule[|schedule| - 1], capacity)
  }

  predicate Empty(slot: Option<Buffer>) { slot.Some? ==> slot.value.text == "" }

  class AsyncLogging {
    const capacity: nat
    var current: Option<Buffer>
    var next: Option<Buffer>
    var buffers: seq<Buffer>
    // local to the background thread
    var newBuffer1: Option<Buffer>
    var newBuffer2: Option<Buffer>
    var buffersToWrite: seq<Buffer>
    var written: nat           // how many of them are in the file
    var collecting: bool       // at the head of its loop, with nothing to write
    var drained: bool          // it has written the rest and ended
    var file: string
    var allocated_: nat        // how many buffers have been allocated so far
    ghost var appended: string // history: the messages that fit a buffer, in lock order

    /** In how many slots the buffer `id` is. */
    ghost function Holds(id: nat): nat
      reads `current, `next, `buffers, `newBuffer1, `newBuffer2, `buffersToWrite
    {
      In(current, id) + In(next, id) + Count(buffers, id) + In(newBuffer1, id) + In(newBuffer2, id)
      + Count(buffersToWrite, id)
    }

    /** ONE SLOT EACH: no buffer is in two slots, or twice in one. */
    ghost predicate Owned()
      reads `current, `next, `buffers, `newBuffer1, `newBuffer2, `buffersToWrite, `allocated_
    {
      forall id: nat :: Holds(id) <= 1 && (id >= allocated_ ==> Holds(id) == 0)
    }

    /** CONSERVATION: the file, the buffers still to be written, the full ones and the current
        one hold, in this order, exactly the appended messages. */
    ghost predicate Conserved()
      reads this
    {
      && written <= |buffersToWrite|
      && file + Texts(buffersToWrite[written..]) + Texts(buffers) + Held(current) == appended
    }

    ghost predicate Valid()
      reads this
    {
      && capacity > 1 && Owned() && Conserved()
      && Empty(next) && Empty(newBuffer1) && Empty(newBuffer2)
      && (collecting ==> buffersToWrite == [])
      && (drained <==> current == None)
      && (drained ==> collecting && buffers == [])
    }

    constructor (capacity: nat)
      requires capacity > 1
      ensures Valid() && appended == "" && file == "" && !drained && this.capacity == capacity
    {
      this.capacity := capacity;
      current, next := Some(Buffer(0, "")), Some(Buffer(1, ""));
      newBuffer1, newBuffer2 := Some(Buffer(2, "")), Some(Buffer(3, ""));
      buffers, buffersToWrite, written, allocated_ := [], [], 0, 4;
      collecting, drained, file, appended := true, false, "", "";
    }

    /** new Buffer, reset. */
    method Allocate() returns (b: Buffer)
      modifies this`allocated_
      ensures b == Buffer(old(allocated_), "") && allocated_ == old(allocated_) + 1
    {
      b := Buffer(allocated_, "");
      allocated_ := allocated_ + 1;
    }

    /** buffers_.push_back(std::move(current_)) */
    method HandOver()
      requires current != None && Owned() && Conserved()
      modifies this`buffers, this`current
      ensures current == None && Texts(buffers) == old(Texts(buffers) + Held(current))
      ensures Owned() && Conserved()
    {
      PushedCounts(buffers, current.value);
      Regroup(file, Texts(buffersToWrite[written..]), Texts(buffers), current.value.text);
      buffers := buffers + [current.value];
      current := None;
      assert forall id :: Holds(id) == old(Holds(id));
    }

    /** The next buffer becomes the current one, without being reset again; when there is
        none a new one is allocated. */
    method TakeNext()
      requires current == None && Empty(next) && Owned() && Conserved()
      modifies this`current, this`next, this`allocated_
      ensures current != None && current.value.text == "" && next == None
      ensures Owned() && Conserved()
    {
      if next != None {
        current := next;
        next := None;
        assert forall id :: Holds(id) == old(Holds(id));
      } else {
        var fresh_ := Allocate();
        current := Some(fresh_);
        assert forall id :: Holds(id) == old(Holds(id)) + In(current, id);
      }
    }

    /** current_->reset() */
    method ResetCurrent()
      requires current != None && current.value.text == "" && Owned() && Conserved()
      modifies this`current
      ensures current == old(current) && Owned() && Conserved()
    {
      current := Some(current.value.(text := ""));
    }

    /** The same for the background thread's first spare buffer. */
    method TakeNewBuffer1()
      requires current == None && Empty(newBuffer1) && Owned()
      modifies this`current, this`newBuffer1, this`allocated_
      ensures current != None && current.value.text == "" && newBuffer1 == None && Owned()
    {
      current := newBuffer1;
      newBuffer1 := None;
      assert forall id :: Holds(id) == old(Holds(id));
      if current == None {
        var fresh_ := Allocate();
        current := Some(fresh_);
        assert forall id :: Holds(id) == old(Holds(id)) + In(current, id);
      }
    }

    /** current_->append, where the text fits or the buffer is empty. */
    method AppendToCurrent(text: string)
      requires current != None && Owned() && Conserved()
      requires |current.value.text| + |text| + 1 < capacity || current.value.text == ""
      modifies this`current, this`appended
      ensures current != None && Owned() && Conserved()
      ensures appended == old(appended) + if |text| + 1 < capacity then text else ""
    {
      Regroup(file + Texts(buffersToWrite[written..]), Texts(buffers), current.value.text, text);
      current := Some(current.value.(text := Appended(capacity, current.value.text, text)));
      appended := appended + if |text| + 1 < capacity then text else "";
      assert forall id :: Holds(id) == old(Holds(id));
      assert old(appended) + "" == old(appended);
    }

    /** append: the message goes to the current buffer, or to the next one after the
        current was handed over. Only one too long for an empty buffer is lost. */
    method Append(text: string)
      requires Valid() && !drained
      modifies this
      ensures Valid() && !drained && file == old(file) && collecting == old(collecting)
      ensures appended == old(appended) + if |text| + 1 < capacity then text else ""
    {
      if capacity - |current.value.text| - 1 > |text| {
        AppendToCurrent(text);
      } else {
        HandOver();
        TakeNext();
        AppendToCurrent(text);
      }
    }

    /** flush: hands a non-empty current buffer over, so that there always is one. */
    method Flush()
      requires Valid() && !drained
      modifies this
      ensures Valid() && !drained && file == old(file) && appended == old(appended) && collecting == old(collecting)
      ensures current.value.text == ""
    {
      if current != None && |current.value.text| > 0 {
        HandOver();
      }
      if current == None {
        TakeNext();
        ResetCurrent();
      }
    }

    /** buffersToWrite.swap(buffers_) */
    method SwapVectors()
      requires Owned() && buffersToWrite == []
      modifies this`buffersToWrite, this`buffers, this`written
      ensures Owned() && buffersToWrite == old(buffers) && buffers == [] && written == 0
      ensures buffersToWrite[written..] == buffersToWrite
    {
      buffersToWrite, buffers, written := buffers, buffersToWrite, 0;
      assert forall id :: Holds(id) == old(Holds(id));
    }

    method RefillNext()
      requires Owned() && Empty(next) && Empty(newBuffer2)
      modifies this`next, this`newBuffer2
      ensures Owned() && Empty(next) && Empty(newBuffer2)
    {
      if next == None {
        next := newBuffer2;
        newBuffer2 := None;
        assert forall id :: Holds(id) == old(Holds(id));
      }
    }

    /** The locked section of threadFunc. */
    method Swap()
      requires Valid() && !drained && collecting
      modifies this
      ensures Valid() && !drained && !collecting && file == old(file) && appended == old(appended)
      ensures buffers == [] && written == 0 && Texts(buffersToWrite) == old(Texts(buffers) + Held(current))
    {
      HandOver();
      TakeNewBuffer1();
      SwapVectors();
      collecting := false;
      RefillNext();
    }

    /** One logFile_.append of the write loop, outside the lock. */
    method WriteOne()
      requires Valid() && !drained && !collecting && written < |buffersToWrite|
      modifies this`file, this`written
      ensures Valid() && !drained && written == old(written) + 1
      ensures file == old(file) + buffersToWrite[old(written)].text
    {
      assert buffersToWrite[written..][1..] == buffersToWrite[written + 1..];
      file := file + buffersToWrite[written].text;
      written := written + 1;
    }

    /** The first spare slot gets the last written buffer, emptied, if it needs one. */
    method Reuse1()
      requires Owned() && Empty(newBuffer1) && written == |buffersToWrite|
      modifies this`buffersToWrite, this`written, this`newBuffer1
      ensures Owned() && Empty(newBuffer1) && written == |buffersToWrite|
    {
      if newBuffer1 == None && buffersToWrite != [] {
        var last := |buffersToWrite| - 1;
        PushedCounts(buffersToWrite[..last], buffersToWrite[last]);
        assert buffersToWrite[..last] + [buffersToWrite[last]] == buffersToWrite;
        newBuffer1 := Some(buffersToWrite[last].(text := ""));
        buffersToWrite, written := buffersToWrite[..last], last;
        assert forall id :: Holds(id) == old(Holds(id));
      }
    }

    method Reuse2()
      requires Owned() && Empty(newBuffer2) && written == |buffersToWrite|
      modifies this`buffersToWrite, this`written, this`newBuffer2
      ensures Owned() && Empty(newBuffer2) && written == |buffersToWrite|
    {
      if newBuffer2 == None && buffersToWrite != [] {
        var last := |buffersToWrite| - 1;
        PushedCounts(buffersToWrite[..last], buffersToWrite[last]);
        assert buffersToWrite[..last] + [buffersToWrite[last]] == buffersToWrite;
        newBuffer2 := Some(buffersToWrite[last].(text := ""));
        buffersToWrite, written := buffersToWrite[..last], last;
        assert forall id :: Holds(id) == old(Holds(id));
      }
    }

    /** buffersToWrite.resize(n) */
    method Truncate(n: nat)
      requires Owned() && n <= written == |buffersToWrite|
      modifies this`buffersToWrite, this`written
      ensures Owned() && written == |buffersToWrite| == n
    {
      PrefixCounts(buffersToWrite, n);
      buffersToWrite, written := buffersToWrite[..n], n;
      assert forall id :: Holds(id) <= old(Holds(id));
    }

    method EnsureSpares()
      requires Owned() && Empty(newBuffer1) && Empty(newBuffer2)
      modifies this`newBuffer1, this`newBuffer2, this`allocated_
      ensures Owned() && Empty(newBuffer1) && Empty(newBuffer2) && newBuffer1 != None && newBuffer2 != None
    {
      if newBuffer1 == None {
        var fresh_ := Allocate();
        newBuffer1 := Some(fresh_);
        assert forall id :: Holds(id) == old(Holds(id)) + In(newBuffer1, id);
      }
      label One:
      if newBuffer2 == None {
        var fresh_ := Allocate();
        newBuffer2 := Some(fresh_);
        assert forall id :: Holds(id) == old@One(Holds(id)) + In(newBuffer2, id);
      }
    }

    /** The end of a round of threadFunc: two written buffers are kept, the rest freed. */
    method Recycle()
      requires Valid() && !drained && !collecting && written == |buffersToWrite|
      modifies this
      ensures Valid() && !drained && collecting && file == old(file) && appended == old(appended)
      ensures newBuffer1 != None && newBuffer2 != None
    {
      assert buffersToWrite[written..] == [];
      if |buffersToWrite| > 2 {
        Truncate(2);
      }
      Reuse1();
      Reuse2();
      Truncate(0);
      collecting := true;
      EnsureSpares();
    }

    /** The end of threadFunc: everything left goes to the file. */
    method Drain()
      requires Valid() && !drained && collecting
      modifies this
      ensures Valid() && drained && appended == old(appended)
      ensures file == appended
    {
      HandOver();
      label Ready:
      file := file + Texts(buffers);
      buffers := [];
      drained := true;
      assert forall id :: Holds(id) <= old@Ready(Holds(id));
    }

    /** One action, where it can happen; the final drain happens exactly when the background
        thread is at the head of its loop. */
    method Step(action: Action)
      requires Valid() && !drained
      modifies this
      ensures Valid() && appended == old(appended) + Kept(action, capacity)
      ensures drained <==> action == Action.Drain && old(collecting)
      ensures action == Action.Drain ==> collecting == old(collecting)
    {
      assert appended + "" == appended;
      match action {
        case Append(text) => Append(text);
        case Flush => Flush();
        case Swap => if collecting { Swap(); }
        case WriteOne => if !collecting && written < |buffersToWrite| { WriteOne(); }
        case Recycle => if !collecting && written == |buffersToWrite| { Recycle(); }
        case Drain => if collecting { Drain(); }
      }
    }

    /** CONSERVATION OVER EVERY INTERLEAVING. Whatever the threads do, in whatever order, the
        history is exactly the fitting messages of the first n actions, the file is a prefix
        of it, what is missing is in the buffers, and once the background thread has ended -
        the only reason to stop early - nothing is missing. */
    method Run(schedule: seq<Action>) returns (n: nat)
      requires Valid() && !drained
      modifies this
      ensures n <= |schedule| && (n < |schedule| ==> drained)
      ensures drained ==> n > 0 && schedule[n - 1] == Action.Drain
      ensures n > 0 && schedule[n - 1] == Action.Drain ==> drained || !collecting
      ensures appended == old(appended) + Fitting(schedule[..n], capacity)
      ensures Valid() && file <= appended && (drained ==> file == appended)
    {
      hide Valid, Fitting, Kept;
      n := 0;
      NothingFits(capacity);
      assert appended + "" == appended && schedule[..0] == [];
      while n < |schedule| && !drained
        invariant 0 <= n <= |schedule| && Valid()
        invariant drained ==> n > 0 && schedule[n - 1] == Action.Drain
        invariant n > 0 && schedule[n - 1] == Action.Drain ==> drained || !collecting
        invariant appended == old(appended) + Fitting(schedule[..n], capacity)
      {
        FittingStep(schedule, n, capacity);
        Step(schedule[n]);
        n := n + 1;
      }
      FileIsPrefix();
    }

    lemma FileIsPrefix()
      requires Valid()
      ensures file <= appended && (drained ==> file == appended)
    {
      Prefix(file, Texts(buffersToWrite[written..]), Texts(buffers), Held(current));
      assert drained ==> buffersToWrite[written..] == [] && file + "" + "" + "" == file;
    }
  }

  lemma NothingFits(capacity: nat)
    ensures Fitting([], capacity) == ""
  {}

  lemma FittingStep(schedule: seq<Action>, i: nat, capacity: nat)
    requires i < |schedule|
    ensures Fitting(schedule[..i + 1], capacity) == Fitting(schedule[..i], capacity) + Kept(schedule[i], capacity)
  {
    assert schedule[..i + 1][..i] == schedule[..i];
  }

  lemma Prefix(a: string, b: string, c: string, d: string)
    ensures a <= a + b + c + d
  {}
}
