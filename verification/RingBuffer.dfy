/**
  The ring buffer of the character device (HW_14-ringbuffer/ring_buffer_char.c) and the FIFO queue it stands for. Each
  critical section is one atomic step.
 */
module RingBuffer {
  import opened Bits

  const MIN_BUFFER_SIZE: nat := 256
  const MAX_BUFFER_SIZE: nat := 65536

  // ---------- the queue ----------

  /** A bounded queue, the oldest byte first, and the counters kept with it. */
  datatype Fifo = Fifo(size: nat, items: seq<int>, writeCount: nat, readCount: nat, overrunCount: nat, blocking: bool)

  datatype Result = Ok(n: nat) | NoSpace | Invalid | NoMemory

  function Min(a: nat, b: nat): nat {
    if a < b then a else b
  }

  /** As much as there is room for is accepted; a full queue refuses and counts an overrun. */
  function AfterWrite(f: Fifo, data: seq<int>): (r: (Fifo, Result))
    requires |f.items| <= f.size
    ensures |r.0.items| <= r.0.size
  {
    if |f.items| == f.size then (f.(overrunCount := f.overrunCount + 1), NoSpace)
    else
      var n := Min(|data|, f.size - |f.items|);
      (f.(items := f.items + data[..n], writeCount := f.writeCount + 1), Ok(n))
  }

  /** The oldest bytes are delivered; reading an empty queue delivers nothing and is not counted. */
  function AfterRead(f: Fifo, len: nat): (r: (Fifo, seq<int>))
    requires |f.items| <= f.size
    ensures |r.0.items| <= r.0.size
  {
    if f.items == [] then (f, [])
    else
      var n := Min(len, |f.items|);
      (f.(items := f.items[n..], readCount := f.readCount + 1), f.items[..n])
  }

  function AfterClear(f: Fifo): Fifo {
    f.(items := [])
  }

  /** A legal new size keeps the oldest bytes that fit, or none when the temporary copy cannot be made. */
  function AfterResize(f: Fifo, newSize: nat, haveBuffer: bool, haveCopy: bool): (r: (Fifo, Result))
    requires |f.items| <= f.size
    ensures |r.0.items| <= r.0.size
  {
    if newSize < MIN_BUFFER_SIZE || newSize > MAX_BUFFER_SIZE then (f, Invalid)
    else if !haveBuffer then (f, NoMemory)
    else (f.(size := newSize, items := if haveCopy then f.items[..Min(|f.items|, newSize)] else []), Ok(0))
  }

  // ---------- what the calls do, in the terms of the queue ----------

  /** A write on a queue that is not full takes as much of the data as fits, and nothing else changes but its count. */
  lemma WriteTakes(f: Fifo, data: seq<int>)
    requires |f.items| < f.size
    ensures var n := if |data| < f.size - |f.items| then |data| else f.size - |f.items|;
      AfterWrite(f, data) ==
        (Fifo(f.size, f.items + data[..n], f.writeCount + 1, f.readCount, f.overrunCount, f.blocking), Ok(n))
  {
  }

  /** On a full queue it takes nothing, and only the overruns are counted. */
  lemma FullRefuses(f: Fifo, data: seq<int>)
    requires |f.items| == f.size
    ensures AfterWrite(f, data) ==
      (Fifo(f.size, f.items, f.writeCount, f.readCount, f.overrunCount + 1, f.blocking), NoSpace)
  {
  }

  /** A read delivers the oldest bytes, as many as asked for and there, and these leave the queue. */
  lemma ReadDelivers(f: Fifo, len: nat)
    requires |f.items| <= f.size
    ensures var (g, data) := AfterRead(f, len);
      && |data| == (if len < |f.items| then len else |f.items|) && f.items == data + g.items
      && g.size == f.size && g.writeCount == f.writeCount && g.overrunCount == f.overrunCount
      && g.blocking == f.blocking && g.readCount == f.readCount + if f.items == [] then 0 else 1
  {
  }

  /** A clear leaves nothing in the queue and changes nothing else. */
  lemma ClearEmpties(f: Fifo)
    ensures AfterClear(f) == Fifo(f.size, [], f.writeCount, f.readCount, f.overrunCount, f.blocking)
  {
  }

  /** A resize to a legal size with both allocations keeps the oldest bytes that fit, the counts and the mode. */
  lemma ResizeFits(f: Fifo, newSize: nat)
    requires |f.items| <= f.size && 256 <= newSize <= 65536
    ensures var n := if |f.items| < newSize then |f.items| else newSize;
      AfterResize(f, newSize, true, true) ==
        (Fifo(newSize, f.items[..n], f.writeCount, f.readCount, f.overrunCount, f.blocking), Ok(0))
  {
  }

  /** A resize to any other size changes nothing. */
  lemma ResizeRefused(f: Fifo, newSize: nat, haveBuffer: bool, haveCopy: bool)
    requires |f.items| <= f.size && (newSize < 256 || newSize > 65536)
    ensures AfterResize(f, newSize, haveBuffer, haveCopy) == (f, Invalid)
  {
  }

  /** A resize that succeeds keeps the oldest bytes exactly when the copy can be made or there is nothing to copy. */
  lemma ResizeKeeps(f: Fifo, newSize: nat, haveBuffer: bool, haveCopy: bool)
    requires |f.items| <= f.size && AfterResize(f, newSize, haveBuffer, haveCopy).1.Ok?
    ensures AfterResize(f, newSize, haveBuffer, haveCopy).0.items == f.items[..Min(|f.items|, newSize)] <==>
            haveCopy || f.items == []
  {
  }

  // ---------- runs ----------

  /** The calls on the device, with the outcomes of the allocations of a resize. */
  datatype Call =
    | Write(data: seq<int>)
    | Read(len: nat)
    | Clear
    | Resize(newSize: nat, haveBuffer: bool, haveCopy: bool)

  /** The bytes that were not lost, in order. */
  function Kept(all: seq<int>, lost: seq<bool>): seq<int>
    requires |all| == |lost|
  {
    if all == [] then []
    else
      var n := |all| - 1;
      Kept(all[..n], lost[..n]) + if lost[n] then [] else [all[n]]
  }

  /** The bytes that were lost, in the order in which they had come. */
  function Lost(all: seq<int>, lost: seq<bool>): seq<int>
    requires |all| == |lost|
  {
    if all == [] then []
    else
      var n := |all| - 1;
      Lost(all[..n], lost[..n]) + if lost[n] then [all[n]] else []
  }

  /** The newest `n` bytes not lost yet are lost. */
  function Drop(lost: seq<bool>, n: nat): (r: seq<bool>)
    ensures |r| == |lost|
  {
    if lost == [] || n == 0 then lost
    else
      var k := |lost| - 1;
      Drop(lost[..k], if lost[k] then n else n - 1) + [true]
  }

  /** The last byte apart: what of the others is kept and lost, before and after a drop. */
  lemma DropHead(all: seq<int>, lost: seq<bool>, n: nat)
    returns (k: nat, m: nat, x: int, was: bool, older: seq<int>, newer: seq<int>, gone: seq<int>, more: seq<int>)
    requires |all| == |lost| > 0 && n > 0
    ensures |all| == k + 1 && x == all[k] && was == lost[k] && m == if was then n else n - 1
    ensures older == Kept(all[..k], lost[..k]) && newer == Kept(all[..k], Drop(lost[..k], m))
    ensures gone == Lost(all[..k], lost[..k]) && more == Lost(all[..k], Drop(lost[..k], m))
    ensures Kept(all, lost) == (if was then older else older + [x]) && Kept(all, Drop(lost, n)) == newer
    ensures Lost(all, lost) == (if was then gone + [x] else gone) && Lost(all, Drop(lost, n)) == more + [x]
  {
    k := |all| - 1;
    x, was := all[k], lost[k];
    m := if was then n else n - 1;
    older, newer := Kept(all[..k], lost[..k]), Kept(all[..k], Drop(lost[..k], m));
    gone, more := Lost(all[..k], lost[..k]), Lost(all[..k], Drop(lost[..k], m));
    assert Drop(lost, n)[..k] == Drop(lost[..k], m);
  }

  /** The newest `n` of `kept` are moved to `gone`. */
  ghost predicate Dropped(kept: seq<int>, gone: seq<int>, n: nat, kept': seq<int>, gone': seq<int>) {
    n <= |kept| && kept' == kept[..|kept| - n] && multiset(gone') == multiset(gone) + multiset(kept[|kept| - n..])
  }

  lemma DroppedStep(kept: seq<int>, gone: seq<int>, m: nat, kept': seq<int>, gone': seq<int>, x: int)
    requires Dropped(kept, gone, m, kept', gone')
    ensures Dropped(kept, gone + [x], m, kept', gone' + [x])
    ensures Dropped(kept + [x], gone, m + 1, kept', gone' + [x])
  {
    var rest := kept[|kept| - m..];
    assert (kept + [x])[|kept| - m..] == rest + [x];
    assert multiset(rest + [x]) == multiset(rest) + multiset{x};
    assert multiset(gone + [x]) == multiset(gone) + multiset{x} &&
      multiset(gone' + [x]) == multiset(gone') + multiset{x};
  }

  lemma DropNone(all: seq<int>, lost: seq<bool>)
    requires |all| == |lost|
    ensures Dropped(Kept(all, lost), Lost(all, lost), 0, Kept(all, Drop(lost, 0)), Lost(all, Drop(lost, 0)))
  {
    assert Kept(all, lost)[|Kept(all, lost)|..] == [];
  }

  lemma {:induction false} KeptDrop(all: seq<int>, lost: seq<bool>, n: nat)
    requires |all| == |lost| && n <= |Kept(all, lost)|
    ensures Dropped(Kept(all, lost), Lost(all, lost), n, Kept(all, Drop(lost, n)), Lost(all, Drop(lost, n)))
    decreases |all|
  {
    if all == [] || n == 0 {
      DropNone(all, lost);
    } else {
      var k, m, x, was, older, newer, gone, more := DropHead(all, lost, n);
      KeptDrop(all[..k], lost[..k], m);
      DroppedStep(older, gone, m, newer, more, x);
    }
  }

  /** What a run has accepted, which of that it has lost, what it has delivered, and the queue it has left. */
  datatype Trace = Trace(queue: Fifo, accepted: seq<int>, lost: seq<bool>, delivered: seq<int>)

  /** What is neither delivered nor lost is in the queue, in the order in which it came. */
  ghost predicate Accounted(t: Trace) {
    && |t.queue.items| <= t.queue.size && |t.lost| == |t.accepted|
    && t.delivered + t.queue.items == Kept(t.accepted, t.lost)
  }

  function Start(f: Fifo): Trace {
    Trace(f, f.items, seq(|f.items|, _ => false), [])
  }

  /** The bytes a queue no longer has are the newest ones. */
  function Cut(t: Trace, queue: Fifo): Trace
    requires |queue.items| <= |t.queue.items|
  {
    t.(queue := queue, lost := Drop(t.lost, |t.queue.items| - |queue.items|))
  }

  function After(t: Trace, call: Call): (r: Trace)
    requires |t.queue.items| <= t.queue.size
    ensures |r.queue.items| <= r.queue.size
  {
    match call
    case Write(data) =>
      var (queue, result) := AfterWrite(t.queue, data);
      var taken := if result.Ok? && result.n <= |data| then data[..result.n] else [];
      Trace(queue, t.accepted + taken, t.lost + seq(|taken|, _ => false), t.delivered)
    case Read(len) =>
      var (queue, data) := AfterRead(t.queue, len);
      t.(queue := queue, delivered := t.delivered + data)
    case Clear => Cut(t, AfterClear(t.queue))
    case Resize(newSize, haveBuffer, haveCopy) => Cut(t, AfterResize(t.queue, newSize, haveBuffer, haveCopy).0)
  }

  function Run(t: Trace, calls: seq<Call>): (r: Trace)
    requires |t.queue.items| <= t.queue.size
    ensures |r.queue.items| <= r.queue.size
    decreases calls
  {
    if calls == [] then t else After(Run(t, calls[..|calls| - 1]), calls[|calls| - 1])
  }

  lemma {:induction false} KeptMore(all: seq<int>, lost: seq<bool>, more: seq<int>, none: seq<bool>)
    requires |all| == |lost| && |more| == |none| && forall k :: 0 <= k < |none| ==> !none[k]
    ensures Kept(all + more, lost + none) == Kept(all, lost) + more
    decreases |more|
  {
    if more == [] {
      assert all + more == all && lost + none == lost && Kept(all, lost) + more == Kept(all, lost);
    } else {
      var n := |more| - 1;
      KeptMore(all, lost, more[..n], none[..n]);
      assert (all + more)[..|all + more| - 1] == all + more[..n];
      assert (lost + none)[..|lost + none| - 1] == lost + none[..n];
      assert more == more[..n] + [more[n]];
    }
  }

  lemma StartAccounted(f: Fifo)
    requires |f.items| <= f.size
    ensures Accounted(Start(f))
  {
    var none := seq(|f.items|, _ => false);
    KeptMore([], [], f.items, none);
    assert [] + f.items == f.items && [] + none == none;
  }

  lemma WriteAccounted(t: Trace, data: seq<int>)
    requires Accounted(t)
    ensures Accounted(After(t, Write(data)))
  {
    var (queue, result) := AfterWrite(t.queue, data);
    var taken := if result.Ok? && result.n <= |data| then data[..result.n] else [];
    KeptMore(t.accepted, t.lost, taken, seq(|taken|, _ => false));
    assert queue.items == t.queue.items + taken;
    assert t.delivered + (t.queue.items + taken) == (t.delivered + t.queue.items) + taken;
  }

  lemma CutAccounted(t: Trace, queue: Fifo)
    requires Accounted(t) && |queue.items| <= queue.size && queue.items <= t.queue.items
    ensures Accounted(Cut(t, queue))
    ensures multiset(Lost(t.accepted, Cut(t, queue).lost)) ==
            multiset(Lost(t.accepted, t.lost)) + multiset(t.queue.items[|queue.items|..])
  {
    var n, lost := |t.queue.items| - |queue.items|, Cut(t, queue).lost;
    KeptDrop(t.accepted, t.lost, n);
    QueueDropped(t.delivered, t.queue.items, queue.items, n, Kept(t.accepted, t.lost), Lost(t.accepted, t.lost),
                 Kept(t.accepted, lost), Lost(t.accepted, lost));
  }

  lemma QueueDropped(delivered: seq<int>, items: seq<int>, rest: seq<int>, n: nat, kept: seq<int>, gone: seq<int>,
                     kept': seq<int>, gone': seq<int>)
    requires kept == delivered + items && rest <= items && n == |items| - |rest|
    requires Dropped(kept, gone, n, kept', gone')
    ensures delivered + rest == kept' && multiset(gone') == multiset(gone) + multiset(items[|rest|..])
  {
    assert kept[|kept| - n..] == items[|rest|..];
  }

  lemma CallAccounted(t: Trace, call: Call)
    requires Accounted(t)
    ensures Accounted(After(t, call))
  {
    match call {
      case Write(data) => WriteAccounted(t, data);
      case Read(len) =>
        var (queue, data) := AfterRead(t.queue, len);
        assert t.queue.items == data + queue.items;
        assert t.delivered + (data + queue.items) == (t.delivered + data) + queue.items;
      case Clear => CutAccounted(t, AfterClear(t.queue));
      case Resize(newSize, haveBuffer, haveCopy) =>
        CutAccounted(t, AfterResize(t.queue, newSize, haveBuffer, haveCopy).0);
    }
  }

  /** The bytes that a call takes out of the queue without delivering them are the ones it adds to the lost ones. */
  lemma CallLoses(t: Trace, call: Call)
    requires Accounted(t) && (call.Clear? || call.Resize?)
    ensures var r := After(t, call);
      && r.accepted == t.accepted && r.delivered == t.delivered && |r.lost| == |r.accepted|
      && r.queue.items <= t.queue.items
      && multiset(Lost(r.accepted, r.lost)) == multiset(Lost(t.accepted, t.lost)) +
        multiset(t.queue.items[|r.queue.items|..])
  {
    var queue := if call.Clear? then AfterClear(t.queue)
                 else AfterResize(t.queue, call.newSize, call.haveBuffer, call.haveCopy).0;
    assert After(t, call) == Cut(t, queue);
    CutAccounted(t, queue);
  }

  lemma {:induction false} KeptOrLost(all: seq<int>, lost: seq<bool>)
    requires |all| == |lost|
    ensures multiset(Kept(all, lost)) + multiset(Lost(all, lost)) == multiset(all)
    decreases |all|
  {
    if all != [] {
      var n := |all| - 1;
      KeptOrLost(all[..n], lost[..n]);
      assert all == all[..n] + [all[n]];
    }
  }

  /**
    Over every run of writes, reads, clears and resizes nothing is invented or reordered, and nothing is lost but what a
    clear or a resize drops: what was delivered and what is left are the accepted bytes that were not lost, in order.
   */
  lemma RunIsFifo(f: Fifo, calls: seq<Call>)
    requires |f.items| <= f.size
    ensures var r := Run(Start(f), calls);
      && |r.lost| == |r.accepted| && r.delivered + r.queue.items == Kept(r.accepted, r.lost)
      && multiset(r.delivered + r.queue.items) + multiset(Lost(r.accepted, r.lost)) == multiset(r.accepted)
  {
    StartAccounted(f);
    RunAccounted(Start(f), calls);
    KeptOrLost(Run(Start(f), calls).accepted, Run(Start(f), calls).lost);
  }

  lemma {:induction false} RunAccounted(t: Trace, calls: seq<Call>)
    requires Accounted(t)
    ensures Accounted(Run(t, calls))
    decreases calls
  {
    if calls != [] {
      RunAccounted(t, calls[..|calls| - 1]);
      CallAccounted(Run(t, calls[..|calls| - 1]), calls[|calls| - 1]);
    }
  }

  /** Neither clears nor resizes. */
  predicate Plain(calls: seq<Call>) {
    forall k :: 0 <= k < |calls| ==> calls[k].Write? || calls[k].Read?
  }

  ghost predicate NoneLost(lost: seq<bool>) {
    forall k :: 0 <= k < |lost| ==> !lost[k]
  }

  lemma {:induction false} PlainLosesNone(t: Trace, calls: seq<Call>)
    requires |t.queue.items| <= t.queue.size && NoneLost(t.lost) && Plain(calls)
    ensures NoneLost(Run(t, calls).lost)
    decreases calls
  {
    if calls != [] { PlainLosesNone(t, calls[..|calls| - 1]); }
  }

  /** Writes and reads alone lose nothing: what was delivered and what is left are all the accepted bytes. */
  lemma PlainRunIsFifo(f: Fifo, calls: seq<Call>)
    requires |f.items| <= f.size && Plain(calls)
    ensures Run(Start(f), calls).delivered + Run(Start(f), calls).queue.items == Run(Start(f), calls).accepted
  {
    RunIsFifo(f, calls);
    PlainLosesNone(Start(f), calls);
    var r := Run(Start(f), calls);
    KeptMore([], [], r.accepted, r.lost);
    assert [] + r.accepted == r.accepted && [] + r.lost == r.lost;
  }

  // ---------- what a blocking write waits for ----------

  predicate HasRoom(f: Fifo, len: nat) {
    f.size - |f.items| >= len
  }

  predicate NoResize(calls: seq<Call>) {
    forall k :: 0 <= k < |calls| ==> !calls[k].Resize?
  }

  lemma {:induction false} SizeStays(t: Trace, calls: seq<Call>)
    requires |t.queue.items| <= t.queue.size && NoResize(calls)
    ensures Run(t, calls).queue.size == t.queue.size
    decreases calls
  {
    if calls != [] { SizeStays(t, calls[..|calls| - 1]); }
  }

  lemma {:induction false} SizeStaysLegal(t: Trace, calls: seq<Call>)
    requires |t.queue.items| <= t.queue.size <= MAX_BUFFER_SIZE
    ensures Run(t, calls).queue.size <= MAX_BUFFER_SIZE
    decreases calls
  {
    if calls != [] { SizeStaysLegal(t, calls[..|calls| - 1]); }
  }

  lemma RunOne(t: Trace, call: Call)
    requires |t.queue.items| <= t.queue.size
    ensures Run(t, [call]) == After(t, call)
  {
    assert [call][..0] == [];
    assert Run(t, []) == t;
  }

  /**
    While the buffer keeps its size, whatever other callers do, the room can come exactly when it is not more than that.
   */
  lemma RoomComes(f: Fifo, len: nat)
    requires |f.items| <= f.size
    ensures (exists calls {:trigger NoResize(calls)} ::
              NoResize(calls) && HasRoom(Run(Start(f), calls).queue, len)) <==> len <= f.size
  {
    if len <= f.size {
      RunOne(Start(f), Clear);
      assert NoResize([Clear]);
    }
    forall calls {:trigger NoResize(calls)} | NoResize(calls) && HasRoom(Run(Start(f), calls).queue, len)
      ensures len <= f.size
    {
      SizeStays(Start(f), calls);
    }
  }

  /** With resizes it can come exactly when it is not more than the largest size. */
  lemma RoomComesResized(f: Fifo, len: nat)
    requires |f.items| <= f.size <= MAX_BUFFER_SIZE
    ensures (exists calls {:trigger Run(Start(f), calls)} :: HasRoom(Run(Start(f), calls).queue, len)) <==>
            len <= MAX_BUFFER_SIZE
  {
    if len <= MAX_BUFFER_SIZE {
      RunOne(Start(f), Resize(MAX_BUFFER_SIZE, true, false));
      assert HasRoom(Run(Start(f), [Resize(MAX_BUFFER_SIZE, true, false)]).queue, len);
    }
    forall calls {:trigger Run(Start(f), calls)} | HasRoom(Run(Start(f), calls).queue, len)
      ensures len <= MAX_BUFFER_SIZE
    {
      SizeStaysLegal(Start(f), calls);
    }
  }

  // ---------- the ring ----------

  /** The place `k` steps behind `tail`, around the end. */
  function Around(tail: nat, k: nat, size: nat): nat
    requires tail < size && k <= size
  {
    if tail + k < size then tail + k else tail + k - size
  }

  lemma AroundIsMod(tail: nat, k: nat, size: nat)
    requires tail < size && k <= size
    ensures Around(tail, k, size) == (tail + k) % size
  {
    var x := tail + k;
    if x < size { QuotientUnique(x, size, 0, x); } else { QuotientUnique(x, size, 1, x - size); }
  }

  /** `count` bytes from `tail` on, around the end of the buffer. */
  function Ring(buffer: seq<int>, tail: nat, count: nat): (r: seq<int>)
    requires tail < |buffer| && count <= |buffer|
    ensures |r| == count
  {
    seq(count, k requires 0 <= k < count => buffer[Around(tail, k, |buffer|)])
  }

  lemma RingAt(buffer: seq<int>, tail: nat, count: nat, k: nat)
    requires tail < |buffer| && k < count <= |buffer|
    ensures Ring(buffer, tail, count)[k] == buffer[Around(tail, k, |buffer|)]
  {
  }

  lemma RingFromStart(buffer: seq<int>, count: nat)
    requires 0 < |buffer| && count <= |buffer|
    ensures Ring(buffer, 0, count) == buffer[..count]
  {
  }

  /** `struct ring_buffer` */
  class RingBuffer {
    var buffer: array<int>
    var size: nat
    var head: nat
    var tail: nat
    var count: nat
    var writeCount: nat
    var readCount: nat
    var overrunCount: nat
    var blocking: bool

    ghost predicate Valid()
      reads this
    {
      && 0 < size == buffer.Length
      && tail < size && count <= size
      && head == Around(tail, count, size)
    }

    ghost function Queue(): (f: Fifo)
      requires Valid()
      reads this, buffer
      ensures |f.items| <= f.size
    {
      Fifo(size, Ring(buffer[..], tail, count), writeCount, readCount, overrunCount, blocking)
    }

    /** The invariant in the words of the source. */
    lemma HeadIsBehind()
      requires Valid()
      ensures head == (tail + count) % size && count <= size && tail < size
    {
      AroundIsMod(tail, count, size);
    }

    /** `(place + n) % size` */
    method Advance(place: nat, n: nat) returns (r: nat)
      requires 0 < size && place < size && n <= size
      ensures r == Around(place, n, size)
    {
      r := (place + n) % size;
      AroundIsMod(place, n, size);
    }

    constructor (size: nat)
      requires MIN_BUFFER_SIZE <= size <= MAX_BUFFER_SIZE
      ensures Valid() && fresh(buffer) && Queue() == Fifo(size, [], 0, 0, 0, true)
    {
      buffer := new int[size];
      this.size := size;
      head, tail, count := 0, 0, 0;
      blocking := true;
      writeCount, readCount, overrunCount := 0, 0, 0;
    }

    /** `memcpy` of `data[from..from + n]` to place `to` of the buffer. */
    method CopyIn(to: nat, data: seq<int>, from: nat, n: nat)
      requires to + n <= buffer.Length && from + n <= |data|
      modifies buffer
      ensures forall k :: 0 <= k < buffer.Length ==>
                buffer[k] == if to <= k < to + n then data[from + k - to] else old(buffer[k])
    {
      forall k | 0 <= k < n { buffer[to + k] := data[from + k]; }
    }

    /** `ring_buffer_write` */
    method WriteBytes(data: seq<int>) returns (result: Result)
      requires Valid()
      modifies this, buffer
      ensures Valid() && buffer == old(buffer)
      ensures (Queue(), result) == AfterWrite(old(Queue()), data)
      ensures old(count) == old(size) ==> result == NoSpace && overrunCount == old(overrunCount) + 1
      ensures old(count) == old(size) ==> Queue().items == old(Queue().items) && writeCount == old(writeCount)
      ensures old(count) < old(size) ==>
        var n := if |data| < old(size) - old(count) then |data| else old(size) - old(count);
        && result == Ok(n) && Queue().items == old(Queue().items) + data[..n]
        && writeCount == old(writeCount) + 1 && overrunCount == old(overrunCount)
      ensures size == old(size) && readCount == old(readCount) && blocking == old(blocking)
    {
      var freeSpace := size - count;
      if freeSpace == 0 {
        overrunCount := overrunCount + 1;
        return NoSpace;
      }
      var len := Min(|data|, freeSpace);
      CopyAround(data, len);
      writeCount := writeCount + 1;
      return Ok(len);
    }

    /** The one or two `memcpy` calls that put `len` bytes behind the head, around the end. */
    method CopyAround(data: seq<int>, len: nat)
      requires Valid() && len <= |data| && count + len <= size
      modifies this`head, this`count, buffer
      ensures Valid() && count == old(count) + len
      ensures Ring(buffer[..], tail, count) == old(Ring(buffer[..], tail, count)) + data[..len]
    {
      ghost var before := buffer[..];
      var firstChunk := Min(len, size - head);
      CopyIn(head, data, 0, firstChunk);
      ghost var oldHead := head;
      if len > firstChunk {
        var secondChunk := len - firstChunk;
        CopyIn(0, data, firstChunk, secondChunk);
        head := secondChunk;
      } else {
        head := Advance(head, len);
      }
      RingGrows(before, buffer[..], tail, count, oldHead, data, len);
      count := count + len;
    }

    /** The one or two `memcpy` calls that take `n` bytes from the tail on. */
    method CopyOut(n: nat, first: nat) returns (data: seq<int>)
      requires 0 < size == buffer.Length && tail < size && n <= size && first == Min(n, size - tail)
      ensures data == Ring(buffer[..], tail, n)
    {
      data := buffer[tail..tail + first];
      if n > first {
        data := data + buffer[..n - first];
      }
    }

    /** `ring_buffer_read` */
    method ReadBytes(len: nat) returns (data: seq<int>)
      requires Valid()
      modifies this
      ensures Valid() && buffer == old(buffer)
      ensures (Queue(), data) == AfterRead(old(Queue()), len)
      ensures |data| == if len < old(count) then len else old(count)
      ensures old(Queue().items) == data + Queue().items
      ensures readCount == old(readCount) + if old(count) == 0 then 0 else 1
      ensures size == old(size) && writeCount == old(writeCount) && overrunCount == old(overrunCount)
      ensures blocking == old(blocking)
    {
      if count == 0 { return []; }
      var available := Min(len, count);
      var firstChunk := Min(available, size - tail);
      data := CopyOut(available, firstChunk);
      ghost var oldTail := tail;
      if available > firstChunk {
        var secondChunk := available - firstChunk;
        tail := secondChunk;
      } else {
        tail := Advance(tail, available);
      }
      RingShrinks(buffer[..], oldTail, count, available);
      count := count - available;
      readCount := readCount + 1;
    }

    /** `ring_buffer_clear` */
    method Clear()
      requires Valid()
      modifies this
      ensures Valid() && buffer == old(buffer) && Queue() == AfterClear(old(Queue()))
      ensures Queue().items == [] && count == 0
      ensures size == old(size) && writeCount == old(writeCount) && readCount == old(readCount)
      ensures overrunCount == old(overrunCount) && blocking == old(blocking)
    {
      head, tail, count := 0, 0, 0;
    }

    /** `ring_buffer_resize`; the two flags tell whether its two allocations succeed. */
    method Resize(newSize: nat, haveBuffer: bool, haveCopy: bool) returns (result: Result)
      requires Valid()
      modifies this
      ensures Valid() && (buffer == old(buffer) || fresh(buffer))
      ensures (Queue(), result) == AfterResize(old(Queue()), newSize, haveBuffer, haveCopy)
      ensures newSize < 256 || newSize > 65536 ==> result == Invalid && Queue() == old(Queue())
      ensures 256 <= newSize <= 65536 && !haveBuffer ==> result == NoMemory && Queue() == old(Queue())
      ensures 256 <= newSize <= 65536 && haveBuffer ==>
        && result == Ok(0) && size == newSize
        && Queue().items == (if !haveCopy then [] else if old(count) < newSize then old(Queue().items)
                             else old(Queue().items)[..newSize])
      ensures writeCount == old(writeCount) && readCount == old(readCount) && overrunCount == old(overrunCount)
      ensures blocking == old(blocking)
    {
      if newSize < MIN_BUFFER_SIZE || newSize > MAX_BUFFER_SIZE { return Invalid; }
      if !haveBuffer { return NoMemory; }
      var newBuffer := new int[newSize];
      var newCount, newHead := 0, 0;
      if count > 0 {
        var toCopy := Min(count, newSize);
        if haveCopy {
          var first := Min(toCopy, size - tail);
          var temp := CopyOut(toCopy, first);
          RingPrefix(buffer[..], tail, count, toCopy);
          forall k | 0 <= k < toCopy { newBuffer[k] := temp[k]; }
          assert newBuffer[..toCopy] == temp;
          newCount := toCopy;
          newHead := toCopy % newSize;
          AroundIsMod(0, toCopy, newSize);
        }
      }
      RingFromStart(newBuffer[..], newCount);
      buffer := newBuffer;
      size, head, tail, count := newSize, newHead, 0, newCount;
      return Ok(0);
    }

    /** The read half of `rb_poll`: readable exactly when a read would deliver something. */
    method PollRead() returns (ready: bool)
      requires Valid()
      ensures ready <==> Queue().items != []
      ensures ready <==> forall len: nat :: len > 0 ==> AfterRead(Queue(), len).1 != []
    {
      ready := count > 0;
      if !ready {
        assert AfterRead(Queue(), 1).1 == [];
      }
    }

    /** The write half: writable exactly when a write would not be refused. */
    method PollWrite() returns (ready: bool)
      requires Valid()
      ensures ready <==> forall data: seq<int> :: AfterWrite(Queue(), data).1.Ok?
    {
      ready := count < size;
      if !ready {
        assert AfterWrite(Queue(), []).1.NoSpace?;
      }
    }

    /** What a blocking `rb_write` waits for: then the write is complete. */
    method RoomFor(len: nat) returns (ready: bool)
      requires Valid()
      ensures ready ==> forall data: seq<int> :: |data| == len && len > 0 ==> AfterWrite(Queue(), data).1 == Ok(len)
      ensures !ready ==> forall data: seq<int> :: |data| == len ==> AfterWrite(Queue(), data).1 != Ok(len)
      ensures ready <==> HasRoom(Queue(), len)
    {
      ready := size - count >= len;
    }
  }

  /** `ring_buffer_init`; the flag tells whether its allocation succeeds. */
  method Create(size: nat, haveBuffer: bool) returns (result: Result, rb: RingBuffer?)
    ensures result == if size < 256 || size > 65536 then Invalid else if !haveBuffer then NoMemory else Ok(0)
    ensures result.Ok? <==> rb != null
    ensures rb != null ==> fresh(rb) && rb.Valid() && fresh(rb.buffer) && rb.Queue() == Fifo(size, [], 0, 0, 0, true)
  {
    if size < MIN_BUFFER_SIZE || size > MAX_BUFFER_SIZE { return Invalid, null; }
    if !haveBuffer { return NoMemory, null; }
    rb := new RingBuffer(size);
    result := Ok(0);
  }

  /** `len` bytes of `data` have been copied in from `head` on, around the end. */
  ghost predicate CopiedIn(before: seq<int>, after: seq<int>, head: nat, data: seq<int>, len: nat)
    requires head < |before| == |after| && len <= |data| && len <= |before|
  {
    var first := Min(len, |before| - head);
    forall k {:trigger after[k]} :: 0 <= k < |after| ==>
      after[k] == if head <= k < head + first then data[k - head]
                  else if k < len - first then data[first + k]
                  else before[k]
  }

  lemma RingGrowsAt(before: seq<int>, after: seq<int>, tail: nat, count: nat, head: nat, data: seq<int>, len: nat,
                    k: nat)
    requires tail < |before| == |after| && count + len <= |before| && len <= |data| && k < count + len
    requires head == Around(tail, count, |before|) && CopiedIn(before, after, head, data, len)
    ensures Ring(after, tail, count + len)[k] == if k < count then Ring(before, tail, count)[k] else data[k - count]
  {
    RingAt(after, tail, count + len, k);
    if k < count { RingAt(before, tail, count, k); }
    WrittenPlace(|before|, tail, count, head, len, k);
  }

  /** Where the k-th byte of the ring lies: among the kept bytes, in the first chunk, or in the second. */
  lemma WrittenPlace(size: nat, tail: nat, count: nat, head: nat, len: nat, k: nat)
    requires tail < size && count + len <= size && k < count + len && head == Around(tail, count, size)
    requires head < size
    ensures var p, first := Around(tail, k, size), Min(len, size - head);
            if k < count then !(head <= p < head + first) && !(p < len - first)
            else if k - count < first then p == head + (k - count)
            else p == k - count - first && p < len - first && p < head
  {
  }

  /** Writing behind the head, around the end, appends to the ring. */
  lemma RingGrows(before: seq<int>, after: seq<int>, tail: nat, count: nat, head: nat, data: seq<int>, len: nat)
    requires tail < |before| == |after| && count + len <= |before| && len <= |data|
    requires head == Around(tail, count, |before|) && CopiedIn(before, after, head, data, len)
    ensures Ring(after, tail, count + len) == Ring(before, tail, count) + data[..len]
  {
    var u, v := Ring(after, tail, count + len), Ring(before, tail, count);
    forall k | 0 <= k < count + len ensures u[k] == (v + data[..len])[k] {
      RingGrowsAt(before, after, tail, count, head, data, len, k);
    }
  }

  /** Moving the tail, around the end, takes the oldest bytes off the ring. */
  lemma RingShrinks(buffer: seq<int>, tail: nat, count: nat, n: nat)
    requires tail < |buffer| && n <= count <= |buffer|
    ensures Ring(buffer, Around(tail, n, |buffer|), count - n) == Ring(buffer, tail, count)[n..]
    ensures Ring(buffer, tail, n) == Ring(buffer, tail, count)[..n]
  {
    var u, v := Ring(buffer, Around(tail, n, |buffer|), count - n), Ring(buffer, tail, count);
    forall k | 0 <= k < count - n ensures |u| == |v| - n && u[k] == v[n + k] {
      RingAt(buffer, Around(tail, n, |buffer|), count - n, k);
      RingAt(buffer, tail, count, n + k);
    }
    RingPrefix(buffer, tail, count, n);
  }

  lemma RingPrefix(buffer: seq<int>, tail: nat, count: nat, n: nat)
    requires tail < |buffer| && n <= count <= |buffer|
    ensures Ring(buffer, tail, n) == Ring(buffer, tail, count)[..n]
  {
    var u, v := Ring(buffer, tail, n), Ring(buffer, tail, count);
    forall k | 0 <= k < n ensures |u| == n && u[k] == v[k] {
      RingAt(buffer, tail, n, k);
      RingAt(buffer, tail, count, k);
    }
  }
}
