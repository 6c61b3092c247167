/** The CoDel queue of outbound frames (udap/codel.hpp). Times are unsigned 64-bit
    numbers, and their difference wraps around. */
module CoDel {
  import opened Bytes

  const DROP_MS: nat := 20
  const INITIAL_INTERVAL: nat := 100
  const NO_DELTA: u64 := 0xFFFF_FFFF_FFFF_FFFF

  datatype Item = Item(id: nat, time: u64)

  /** What Process compares with the drop limit. */
  function Delta(start: u64, i: Item): (d: u64)
  {
    Minus64(start, i.time)
  }

  ghost predicate AllLate(queue: multiset<Item>, start: u64)
  {
    forall i {:trigger queue[i]} :: i in queue ==> Delta(start, i) > DROP_MS
  }

  /** What every queue that was only used through Put and Process satisfies. */
  ghost predicate Valid(queue: multiset<Item>, firstPut: u64)
  {
    queue != multiset{} ==> exists i {:trigger queue[i]} :: i in queue && i.time == firstPut
  }

  ghost predicate NewestFirst(out: seq<Item>)
  {
    forall j, k {:trigger out[j], out[k]} :: 0 <= j < k < |out| ==> out[j].time >= out[k].time
  }

  /** Some item is a newest one; the priority queue shows one of those. */
  lemma {:induction false} NewestExists(queue: multiset<Item>)
    requires queue != multiset{}
    ensures exists i {:trigger queue[i]} :: i in queue && forall k {:trigger queue[k]} :: k in queue ==> k.time <= i.time
    decreases |queue|
  {
    var i :| i in queue;
    var rest := queue - multiset{i};
    if rest != multiset{} {
      NewestExists(rest);
      var m :| m in rest && forall k {:trigger rest[k]} :: k in rest ==> k.time <= m.time;
      var newest := if m.time < i.time then i else m;
      forall k | k in queue
        ensures k.time <= newest.time
      {
        assert k == i || k in rest;
      }
      assert newest in queue;
    } else {
      assert queue == multiset{i};
    }
  }

  /** The oldest item is not late: its delta is zero, however far the deltas of the
      newer ones have wrapped. */
  lemma NeverAllLate(queue: multiset<Item>, firstPut: u64)
    requires Valid(queue, firstPut)
    ensures queue != multiset{} ==> !AllLate(queue, firstPut)
  {
    if queue != multiset{} {
      var i :| i in queue && i.time == firstPut;
      assert queue[i] > 0 && Delta(firstPut, i) == 0;
    }
  }

  /** Part way through Process: what is out, newest first, and what is left, which is
      not newer; and `lowest` is within the limit exactly if something out is. */
  ghost predicate Popped(all: multiset<Item>, out: seq<Item>, queue: multiset<Item>, start: u64, lowest: u64)
  {
    && multiset(out) + queue == all && NewestFirst(out)
    && (forall i, k {:trigger queue[i], out[k]} :: i in queue && 0 <= k < |out| ==> i.time <= out[k].time)
    && (lowest <= DROP_MS <==> exists k {:trigger out[k]} :: 0 <= k < |out| && Delta(start, out[k]) <= DROP_MS)
  }

  predicate IsNewest(queue: multiset<Item>, item: Item)
  {
    item in queue && forall k {:trigger queue[k]} :: k in queue ==> k.time <= item.time
  }

  function Lower(lowest: u64, d: u64): (l: u64)
  {
    if d < lowest then d else lowest
  }

  lemma PopNext(all: multiset<Item>, out: seq<Item>, queue: multiset<Item>, start: u64, lowest: u64, item: Item)
    requires Popped(all, out, queue, start, lowest) && IsNewest(queue, item)
    ensures Popped(all, out + [item], queue - multiset{item}, start, Lower(lowest, Delta(start, item)))
  {
    var next, rest, low := out + [item], queue - multiset{item}, Lower(lowest, Delta(start, item));
    assert multiset(next) + rest == all;
    forall i, k | i in rest && 0 <= k < |next|
      ensures i.time <= next[k].time
    {
      assert queue[i] > 0;
      assert queue[item] > 0;
    }
    assert queue[item] > 0;
    assert NewestFirst(next);
    if low <= DROP_MS {
      if Delta(start, item) <= DROP_MS {
        assert next[|out|] == item;
      } else {
        var k :| 0 <= k < |out| && Delta(start, out[k]) <= DROP_MS;
        assert next[k] == out[k];
      }
    } else {
      forall k | 0 <= k < |next|
        ensures Delta(start, next[k]) > DROP_MS
      {
        assert k < |out| ==> next[k] == out[k];
      }
    }
  }

  lemma PopLast(all: multiset<Item>, out: seq<Item>, start: u64, lowest: u64, item: Item)
    requires Popped(all, out, multiset{item}, start, lowest)
    ensures AllLate(all, start) <==> Lower(lowest, Delta(start, item)) > DROP_MS
    ensures forall i {:trigger all[i]} :: i in all ==> item.time <= i.time
  {
    assert multiset{item}[item] > 0;
    forall i | i in all
      ensures i == item || exists k {:trigger out[k]} :: 0 <= k < |out| && out[k] == i
    {
      assert all[i] == multiset(out)[i] + multiset{item}[i];
      assert i != item ==> i in out;
    }
    forall k | 0 <= k < |out|
      ensures all[out[k]] > 0
    {
      assert out[k] in multiset(out);
    }
    assert all[item] > 0;
  }

  /** `slowdown(n)` is 100 divided by the square root of n, truncated as the addition
      to the interval truncates it. */
  class CoDelQueue {
    const slowdown: nat -> nat
    var queue: multiset<Item>
    var firstPut: u64
    var dropNum: nat
    var nextTickInterval: nat

    constructor (slow: nat -> nat)
      ensures queue == multiset{} && firstPut == 0 && slowdown == slow && Valid(queue, firstPut)
    {
      slowdown, queue, firstPut, dropNum, nextTickInterval := slow, multiset{}, 0, 0, INITIAL_INTERVAL;
    }

    /** Put at a time the clock may give in any order, zero included. */
    method Put(id: nat, time: u64)
      modifies this`queue, this`firstPut
      ensures queue == old(queue) + multiset{Item(id, time)}
      ensures firstPut == if old(firstPut) == 0 then time else old(firstPut)
      ensures old(Valid(queue, firstPut)) && (old(queue) == multiset{} ==> old(firstPut) == 0) ==>
                Valid(queue, firstPut)
    {
      var item := Item(id, time);
      ghost var was := queue;
      queue := queue + multiset{item};
      assert item in queue;
      if firstPut == 0 {
        firstPut := time;
      } else if was != multiset{} && Valid(was, firstPut) {
        var i :| i in was && i.time == firstPut;
        assert i in queue;
      }
    }

    /** The top of the queue. */
    method Top() returns (item: Item)
      requires queue != multiset{}
      ensures item in queue && IsNewest(queue, item)
    {
      NewestExists(queue);
      item :| item in queue && IsNewest(queue, item);
    }

    /** The last round of Process: the item goes out unless everything was late. */
    method Last(ghost all: multiset<Item>, ghost out: seq<Item>, start: u64, lowest: u64, item: Item) returns (drop: bool)
      requires Popped(all, out, multiset{item}, start, lowest)
      modifies this`dropNum, this`nextTickInterval
      ensures drop <==> AllLate(all, start)
      ensures forall i {:trigger all[i]} :: i in all ==> item.time <= i.time
      ensures if drop then dropNum == old(dropNum) + 1 && nextTickInterval == old(nextTickInterval) + slowdown(dropNum)
              else dropNum == 0 && nextTickInterval == INITIAL_INTERVAL
    {
      PopLast(all, out, start, lowest, item);
      drop := Lower(lowest, Delta(start, item)) > DROP_MS;
      if drop {
        dropNum := dropNum + 1;
        nextTickInterval := nextTickInterval + slowdown(dropNum);
      } else {
        nextTickInterval := INITIAL_INTERVAL;
        dropNum := 0;
      }
    }

    /** The item of the last round goes out or is dropped. */
    method PopLastOne(ghost all: multiset<Item>, ghost base: seq<Item>, ghost before: seq<Item>, start: u64, lowest: u64, result: seq<Item>)
      returns (r: seq<Item>, ghost out: seq<Item>, ghost dropped: Option<Item>)
      requires |queue| == 1 && Popped(all, before, queue, start, lowest) && result == base + before
      modifies this`queue, this`dropNum, this`nextTickInterval
      ensures queue == multiset{} && r == base + out && NewestFirst(out)
      ensures dropped.Some? <==> AllLate(all, start)
      ensures match dropped
              case None => multiset(out) == all && dropNum == 0 && nextTickInterval == INITIAL_INTERVAL
              case Some(d) =>
                && multiset(out) + multiset{d} == all && (forall i {:trigger all[i]} :: i in all ==> d.time <= i.time)
                && dropNum == old(dropNum) + 1 && nextTickInterval == old(nextTickInterval) + slowdown(dropNum)
    {
      var item := Top();
      OnlyOne(queue, item);
      PopNext(all, before, queue, start, lowest, item);
      var drop := Last(all, before, start, lowest, item);
      queue := queue - multiset{item};
      if drop {
        r, out, dropped := result, before, Some(item);
      } else {
        r, out, dropped := result + [item], before + [item], None;
      }
    }

    /** The rounds of Process before the last one. */
    method PopAllButOne(start: u64, result: seq<Item>) returns (r: seq<Item>, lowest: u64, ghost out: seq<Item>)
      requires queue != multiset{}
      modifies this`queue
      ensures |queue| == 1 && r == result + out && Popped(old(queue), out, queue, start, lowest)
    {
      r, lowest, out := result, NO_DELTA, [];
      while |queue| > 1
        invariant queue != multiset{} && r == result + out && Popped(old(queue), out, queue, start, lowest)
        decreases |queue|
      {
        var item := Top();
        PopNext(old(queue), out, queue, start, lowest, item);
        lowest := Lower(lowest, Delta(start, item));
        r := r + [item];
        out := out + [item];
        queue := queue - multiset{item};
      }
    }

    /** Process, in any state: the queue is emptied newest first into the result,
        except that the last item, a least recent one, is dropped when every item is
        late; and that happens exactly then. */
    method Process(result: seq<Item>) returns (r: seq<Item>, ghost out: seq<Item>, ghost dropped: Option<Item>)
      modifies this
      ensures queue == multiset{} && firstPut == 0
      ensures r == result + out && NewestFirst(out)
      ensures dropped.Some? <==> old(queue) != multiset{} && AllLate(old(queue), old(firstPut))
      ensures dropped.Some? <==> old(queue) != multiset{} && forall i {:trigger old(queue)[i]} :: i in old(queue) ==> Minus64(old(firstPut), i.time) > 20
      ensures dropped.None? ==> multiset(out) == old(queue)
      ensures dropped.Some? ==>
                && multiset(out) + multiset{dropped.value} == old(queue)
                && forall i {:trigger old(queue)[i]} :: i in old(queue) ==> dropped.value.time <= i.time
      ensures dropped.Some? ==> dropNum == old(dropNum) + 1 && nextTickInterval == old(nextTickInterval) + slowdown(dropNum)
      ensures dropped.None? && old(queue) != multiset{} ==> dropNum == 0 && nextTickInterval == INITIAL_INTERVAL
    {
      r, out, dropped := result, [], None;
      var start := firstPut;
      if queue != multiset{} {
        ghost var all, before := queue, [];
        var lowest;
        r, lowest, before := PopAllButOne(start, result);
        r, out, dropped := PopLastOne(all, result, before, start, lowest, r);
      }
      firstPut := 0;
    }
  }

  lemma OnlyOne(queue: multiset<Item>, item: Item)
    requires |queue| == 1 && item in queue
    ensures queue == multiset{item}
  {
    assert queue == multiset{item} + (queue - multiset{item});
  }

  // ----- runs -------------------------------------------------------------------------

  /** What a sequence of calls does: an item put, or all of them out in this order. */
  datatype Call = Put(item: Item) | Processed(out: seq<Item>)

  /** The queue and its first time after some calls; every Process puts out what its
      contract allows. */
  ghost predicate Runs(queue: multiset<Item>, firstPut: u64, calls: seq<Call>)
    decreases |calls|
  {
    calls == [] ||
    match calls[0]
    case Put(item) => Runs(queue + multiset{item}, if firstPut == 0 then item.time else firstPut, calls[1..])
    case Processed(out) =>
      && NewestFirst(out)
      && (if queue != multiset{} && AllLate(queue, firstPut) then exists d :: multiset(out) + multiset{d} == queue else multiset(out) == queue)
      && Runs(multiset{}, 0, calls[1..])
  }

  function PutIn(calls: seq<Call>): (m: multiset<Item>)
  {
    if calls == [] then multiset{}
    else if calls[0].Put? then multiset{calls[0].item} + PutIn(calls[1..])
    else PutIn(calls[1..])
  }

  function PutOut(calls: seq<Call>): (m: multiset<Item>)
  {
    if calls == [] then multiset{}
    else if calls[0].Processed? then multiset(calls[0].out) + PutOut(calls[1..])
    else PutOut(calls[1..])
  }

  /** The items put after the last Process. */
  function Waiting(queue: multiset<Item>, calls: seq<Call>): (m: multiset<Item>)
    decreases |calls|
  {
    if calls == [] then queue
    else if calls[0].Put? then Waiting(queue + multiset{calls[0].item}, calls[1..])
    else Waiting(multiset{}, calls[1..])
  }

  lemma PutKeepsValid(queue: multiset<Item>, firstPut: u64, item: Item)
    requires Valid(queue, firstPut) && (queue == multiset{} ==> firstPut == 0)
    ensures Valid(queue + multiset{item}, if firstPut == 0 then item.time else firstPut)
  {
    var next := queue + multiset{item};
    assert item in next;
    if firstPut != 0 {
      var i :| i in queue && i.time == firstPut;
      assert i in next;
    }
  }

  lemma {:induction false} EachProcessIsComplete(queue: multiset<Item>, firstPut: u64, calls: seq<Call>, i: nat)
    requires Valid(queue, firstPut) && (queue == multiset{} ==> firstPut == 0) && Runs(queue, firstPut, calls)
    requires i < |calls| && calls[i].Processed?
    ensures multiset(calls[i].out) == Waiting(queue, calls[..i]) && NewestFirst(calls[i].out)
    decreases |calls|
  {
    NeverAllLate(queue, firstPut);
    if i > 0 {
      assert calls[..i][1..] == calls[1..][..i - 1];
      match calls[0] {
        case Put(item) =>
          PutKeepsValid(queue, firstPut, item);
          EachProcessIsComplete(queue + multiset{item}, if firstPut == 0 then item.time else firstPut, calls[1..], i - 1);
        case Processed(out) => EachProcessIsComplete(multiset{}, 0, calls[1..], i - 1);
      }
    }
  }

  /** Nothing is ever dropped, whatever times the clock gives: over a whole run what
      came out and what waits is what was put in, and each Process puts out exactly
      the items put since the one before it, newest first. */
  lemma {:induction false} NothingIsDropped(queue: multiset<Item>, firstPut: u64, calls: seq<Call>)
    requires Valid(queue, firstPut) && (queue == multiset{} ==> firstPut == 0) && Runs(queue, firstPut, calls)
    ensures queue + PutIn(calls) == PutOut(calls) + Waiting(queue, calls)
    ensures forall i {:trigger calls[i]} :: 0 <= i < |calls| && calls[i].Processed? ==>
              multiset(calls[i].out) == Waiting(queue, calls[..i]) && NewestFirst(calls[i].out)
    decreases |calls|
  {
    Conserved(queue, firstPut, calls);
    forall i | 0 <= i < |calls| && calls[i].Processed?
      ensures multiset(calls[i].out) == Waiting(queue, calls[..i]) && NewestFirst(calls[i].out)
    {
      EachProcessIsComplete(queue, firstPut, calls, i);
    }
  }

  lemma {:induction false} Conserved(queue: multiset<Item>, firstPut: u64, calls: seq<Call>)
    requires Valid(queue, firstPut) && (queue == multiset{} ==> firstPut == 0) && Runs(queue, firstPut, calls)
    ensures queue + PutIn(calls) == PutOut(calls) + Waiting(queue, calls)
    decreases |calls|
  {
    if calls != [] {
      match calls[0] {
        case Put(item) =>
          PutKeepsValid(queue, firstPut, item);
          Conserved(queue + multiset{item}, if firstPut == 0 then item.time else firstPut, calls[1..]);
        case Processed(out) =>
          NeverAllLate(queue, firstPut);
          Conserved(multiset{}, 0, calls[1..]);
      }
    }
  }
}
