/**
 `findAvailableSlots` of lib/circadian.ts: a pointer walk, starting at wake, over the fixed
 blocks sorted by start, emitting the gap before each block when it is long enough, then the
 gap up to sleep. Written as a left fold whose step is one loop iteration.
 */
module Slots {
  import opened Wrappers
  import opened TimeText
  import opened Types
  import opened Energy
  import opened Sorting

  const DefaultMinDuration: int := 30

  datatype WalkState = WalkState(slots: seq<Slot>, pointer: int)

  /** The slot `[from, to)`. The source never passes a curve to the averaging helper, so every
      slot's energy is the helper's default. */
  function MakeSlot(from: nat, to: int): Slot {
    Slot(ToTime(from), ToTime(to), to - from, AverageEnergy(from, to, None))
  }

  /** One iteration: emit the gap before block `b` if it is at least `minDuration` long, then
      move the pointer to `max(pointer, end of b)`. */
  function Step(st: WalkState, b: Block, minDuration: int): WalkState
    requires st.pointer >= 0
  {
    var blockStart := MinuteOf(b.start);
    var blockEnd := MinuteOf(b.end);
    var gap := if blockStart - st.pointer >= minDuration then [MakeSlot(st.pointer, blockStart)] else [];
    WalkState(st.slots + gap, if st.pointer >= blockEnd then st.pointer else blockEnd)
  }

  function Walk(blocks: seq<Block>, st: WalkState, minDuration: int): (r: WalkState)
    requires st.pointer >= 0
    ensures r.pointer >= st.pointer
    ensures |st.slots| <= |r.slots| && r.slots[..|st.slots|] == st.slots
  {
    if |blocks| == 0 then st else Walk(blocks[1..], Step(st, blocks[0], minDuration), minDuration)
  }

  /** The latest of `w` and the ends of `bs`: where the pointer stands after passing `bs`
      from `w`. */
  function MaxEnd(w: nat, bs: seq<Block>): (r: nat)
    ensures r >= w
    ensures forall b :: b in bs ==> MinuteOf(b.end) <= r
    ensures r == w || exists b :: b in bs && r == MinuteOf(b.end)
  {
    if |bs| == 0 then w
    else
      var e, rest := MinuteOf(bs[0].end), MaxEnd(w, bs[1..]);
      assert forall b :: b in bs ==> b == bs[0] || b in bs[1..];
      if e >= rest then e else rest
  }

  lemma {:induction false} MaxEndLift(w: nat, bs: seq<Block>)
    ensures MaxEnd(w, bs) == if w >= MaxEnd(0, bs) then w else MaxEnd(0, bs)
  {
    if |bs| > 0 {
      MaxEndLift(w, bs[1..]);
      MaxEndLift(0, bs[1..]);
    }
  }

  /** Passing a first block from `p` and then `bs` leaves the pointer where passing the whole
      list from `p` does. */
  lemma MaxEndStep(p: nat, b: Block, bs: seq<Block>)
    ensures MaxEnd(if p >= MinuteOf(b.end) then p else MinuteOf(b.end), bs) == MaxEnd(p, [b] + bs)
  {
    var q := if p >= MinuteOf(b.end) then p else MinuteOf(b.end);
    assert ([b] + bs)[1..] == bs;
    MaxEndLift(q, bs);
    MaxEndLift(p, bs);
  }

  /** The walk's pointer ends at the latest of its start and the passed blocks' ends. */
  lemma {:induction false} WalkPointerIsMaxEnd(blocks: seq<Block>, st: WalkState, minDuration: int)
    requires st.pointer >= 0
    ensures Walk(blocks, st, minDuration).pointer == MaxEnd(st.pointer, blocks)
  {
    if |blocks| > 0 {
      var next := Step(st, blocks[0], minDuration);
      WalkPointerIsMaxEnd(blocks[1..], next, minDuration);
      MaxEndStep(st.pointer, blocks[0], blocks[1..]);
      assert [blocks[0]] + blocks[1..] == blocks;
    }
  }

  /** The gap the walk meets before its `i`-th block: from the pointer after the first `i`
      blocks to the start of block `i`. */
  function GapBefore(w: nat, bs: seq<Block>, i: nat): Slot
    requires i < |bs|
  {
    MakeSlot(MaxEnd(w, bs[..i]), MinuteOf(bs[i].start))
  }

  predicate GapQualifies(w: nat, bs: seq<Block>, i: nat, minDuration: int)
    requires i < |bs|
  {
    MinuteOf(bs[i].start) - MaxEnd(w, bs[..i]) >= minDuration
  }

  lemma InPrefix<T>(x: T, a: seq<T>, r: seq<T>)
    requires x in a
    requires |a| <= |r| && r[..|a|] == a
    ensures x in r
  {
    var k :| 0 <= k < |a| && a[k] == x;
    assert r[k] == x;
  }

  /** The gap before the first block is emitted when it is long enough. */
  lemma WalkFindsFirstGap(blocks: seq<Block>, st: WalkState, minDuration: int)
    requires st.pointer >= 0
    requires 0 < |blocks|
    requires GapQualifies(st.pointer, blocks, 0, minDuration)
    ensures GapBefore(st.pointer, blocks, 0) in Walk(blocks, st, minDuration).slots
  {
    var next := Step(st, blocks[0], minDuration);
    assert blocks[..0] == [];
    assert GapBefore(st.pointer, blocks, 0) == MakeSlot(st.pointer, MinuteOf(blocks[0].start));
    assert GapBefore(st.pointer, blocks, 0) in next.slots;
    InPrefix(GapBefore(st.pointer, blocks, 0), next.slots, Walk(blocks[1..], next, minDuration).slots);
  }

  /** After the first block, the gap before block `i` is the gap before block `i - 1` of the
      rest, seen from the moved pointer `q`. */
  lemma GapShift(p: nat, blocks: seq<Block>, i: nat, q: nat)
    requires 0 < i < |blocks|
    requires q == if p >= MinuteOf(blocks[0].end) then p else MinuteOf(blocks[0].end)
    ensures MaxEnd(q, blocks[1..][..i - 1]) == MaxEnd(p, blocks[..i])
    ensures blocks[1..][i - 1] == blocks[i]
  {
    assert blocks[..i] == [blocks[0]] + blocks[1..][..i - 1];
    MaxEndStep(p, blocks[0], blocks[1..][..i - 1]);
  }

  /** Completeness of the walk: every gap of at least `minDuration` before a block is emitted. */
  lemma {:induction false} WalkFindsGap(blocks: seq<Block>, st: WalkState, minDuration: int, i: nat)
    requires st.pointer >= 0
    requires i < |blocks|
    requires GapQualifies(st.pointer, blocks, i, minDuration)
    ensures GapBefore(st.pointer, blocks, i) in Walk(blocks, st, minDuration).slots
  {
    if i == 0 {
      WalkFindsFirstGap(blocks, st, minDuration);
    } else {
      var next := Step(st, blocks[0], minDuration);
      GapShift(st.pointer, blocks, i, next.pointer);
      WalkFindsGap(blocks[1..], next, minDuration, i - 1);
    }
  }

  /** What every emitted slot satisfies: clock-text ends, a duration equal to the distance
      between them and at least `minDuration`, a start no earlier than wake, energy 0.5. */
  predicate GoodSlot(sl: Slot, wake: int, minDuration: int) {
    && IsClock(sl.start) && IsClock(sl.end)
    && sl.duration == MinuteOf(sl.end) - MinuteOf(sl.start)
    && sl.duration >= minDuration
    && MinuteOf(sl.start) >= wake
    && sl.energy == 0.5
  }

  lemma GoodMakeSlot(from: nat, to: int, wake: int, minDuration: int)
    requires wake <= from < MinutesPerDay && 0 <= to < MinutesPerDay
    requires to - from >= minDuration
    ensures GoodSlot(MakeSlot(from, to), wake, minDuration)
  {
    ResidueOfMinute(from);
    ResidueOfMinute(to);
  }

  /** The pointer part of the loop invariant: it stays within [wake, 1440) and is at least
      the end of every block already passed. */
  lemma {:induction false} WalkPointer(blocks: seq<Block>, st: WalkState, wake: int, minDuration: int)
    requires forall b :: b in blocks ==> ClockBlock(b)
    requires 0 <= wake <= st.pointer < MinutesPerDay
    ensures var r := Walk(blocks, st, minDuration);
      && wake <= r.pointer < MinutesPerDay
      && (forall b :: b in blocks ==> MinuteOf(b.end) <= r.pointer)
  {
    if |blocks| > 0 {
      var b := blocks[0];
      assert b in blocks;
      var next := Step(st, b, minDuration);
      WalkPointer(blocks[1..], next, wake, minDuration);
      var r := Walk(blocks, st, minDuration);
      assert r == Walk(blocks[1..], next, minDuration);
      forall b' | b' in blocks ensures MinuteOf(b'.end) <= r.pointer {
        if b' != b {
          assert b' in blocks[1..];
        }
      }
    }
  }

  /** One step keeps the pointer within [wake, 1440) and adds at most one slot, a good one
      ending where the block starts. */
  lemma StepFacts(st: WalkState, b: Block, wake: int, minDuration: int)
    requires ClockBlock(b)
    requires 0 <= wake <= st.pointer < MinutesPerDay
    ensures var next := Step(st, b, minDuration);
      && wake <= next.pointer < MinutesPerDay
      && |st.slots| <= |next.slots| <= |st.slots| + 1
      && next.slots[..|st.slots|] == st.slots
      && (forall i :: |st.slots| <= i < |next.slots| ==>
            GoodSlot(next.slots[i], wake, minDuration) && next.slots[i].end == b.start)
  {
    var blockStart := MinuteOf(b.start);
    if blockStart - st.pointer >= minDuration {
      GoodMakeSlot(st.pointer, blockStart, wake, minDuration);
      ToTimeOfToMin(b.start);
    }
  }

  /** The slot part of the loop invariant: slots only accumulate, each block adds at most one,
      and each new slot is good and ends where some passed block starts. */
  lemma {:induction false} WalkSlots(blocks: seq<Block>, st: WalkState, wake: int, minDuration: int)
    requires forall b :: b in blocks ==> ClockBlock(b)
    requires 0 <= wake <= st.pointer < MinutesPerDay
    ensures var r := Walk(blocks, st, minDuration);
      && |st.slots| <= |r.slots| <= |st.slots| + |blocks|
      && r.slots[..|st.slots|] == st.slots
      && (forall i :: |st.slots| <= i < |r.slots| ==> GoodSlot(r.slots[i], wake, minDuration))
      && (forall i :: |st.slots| <= i < |r.slots| ==> exists b :: b in blocks && b.start == r.slots[i].end)
  {
    if |blocks| > 0 {
      var b := blocks[0];
      assert b in blocks;
      assert forall b' :: b' in blocks[1..] ==> b' in blocks;
      var next := Step(st, b, minDuration);
      StepFacts(st, b, wake, minDuration);
      WalkSlots(blocks[1..], next, wake, minDuration);
      var r := Walk(blocks, st, minDuration);
      assert r == Walk(blocks[1..], next, minDuration);
      assert r.slots[..|next.slots|] == next.slots;
      forall i | |st.slots| <= i < |r.slots|
        ensures GoodSlot(r.slots[i], wake, minDuration)
        ensures exists b' :: b' in blocks && b'.start == r.slots[i].end
      {
        if i < |next.slots| {
          assert r.slots[i] == next.slots[i];
        } else {
          var b' :| b' in blocks[1..] && b'.start == r.slots[i].end;
        }
      }
    }
  }

  /** The walk from wake over `sorted`, then the final gap up to sleep. */
  function WalkToSleep(sorted: seq<Block>, w: nat, s: int, minDuration: int): seq<Slot> {
    var st := Walk(sorted, WalkState([], w), minDuration);
    st.slots + (if s - st.pointer >= minDuration then [MakeSlot(st.pointer, s)] else [])
  }

  lemma {:induction false} WalkToSleepFacts(sorted: seq<Block>, wake: string, sleep: string, minDuration: int)
    requires IsClock(wake) && IsClock(sleep)
    requires forall b :: b in sorted ==> ClockBlock(b)
    ensures var r := WalkToSleep(sorted, MinuteOf(wake), MinuteOf(sleep), minDuration);
      && |r| <= |sorted| + 1
      && (forall sl :: sl in r ==> GoodSlot(sl, MinuteOf(wake), minDuration))
      && (forall sl :: sl in r ==> sl.end == sleep || exists b :: b in sorted && b.start == sl.end)
  {
    var w := MinuteOf(wake);
    var s := MinuteOf(sleep);
    var st := Walk(sorted, WalkState([], w), minDuration);
    WalkPointer(sorted, WalkState([], w), w, minDuration);
    WalkSlots(sorted, WalkState([], w), w, minDuration);
    var last := if s - st.pointer >= minDuration then [MakeSlot(st.pointer, s)] else [];
    if s - st.pointer >= minDuration {
      GoodMakeSlot(st.pointer, s, w, minDuration);
      ToTimeOfToMin(sleep);
    }
    var r := st.slots + last;
    assert r == WalkToSleep(sorted, w, s, minDuration);
    forall sl | sl in r
      ensures GoodSlot(sl, w, minDuration)
      ensures sl.end == sleep || exists b :: b in sorted && b.start == sl.end
    {
      var i :| 0 <= i < |r| && r[i] == sl;
      if i < |st.slots| {
        assert sl == st.slots[i];
      } else {
        assert sl == last[0];
      }
    }
  }

  /** `findAvailableSlots(blocks, wake, sleep, minDuration)`: at most one slot per fixed block
      plus one, each of them good, each ending at sleep or where some fixed block starts. */
  function FindAvailableSlots(blocks: seq<Block>, wake: string, sleep: string, minDuration: int): (r: seq<Slot>)
    requires IsClock(wake) && IsClock(sleep)
    requires forall b :: b in blocks ==> ClockBlock(b)
    ensures |r| <= |blocks| + 1
    ensures forall sl :: sl in r ==> GoodSlot(sl, MinuteOf(wake), minDuration)
    ensures forall sl :: sl in r ==> sl.end == sleep || exists b :: b in blocks && b.start == sl.end
    ensures var sorted := SortBy(blocks, StartKey);
      forall i :: 0 <= i < |sorted| && GapQualifies(MinuteOf(wake), sorted, i, minDuration) ==>
        GapBefore(MinuteOf(wake), sorted, i) in r
    ensures var last := MaxEnd(MinuteOf(wake), SortBy(blocks, StartKey));
      MinuteOf(sleep) - last >= minDuration ==> MakeSlot(last, MinuteOf(sleep)) in r
  {
    var sorted := SortBy(blocks, StartKey);
    var w := MinuteOf(wake);
    var st := Walk(sorted, WalkState([], w), minDuration);
    var r := WalkToSleep(sorted, w, MinuteOf(sleep), minDuration);
    assert st.slots <= r;
    forall i | 0 <= i < |sorted| && GapQualifies(w, sorted, i, minDuration)
      ensures GapBefore(w, sorted, i) in r
    {
      WalkFindsGap(sorted, WalkState([], w), minDuration, i);
    }
    WalkPointerIsMaxEnd(sorted, WalkState([], w), minDuration);
    assert forall b :: b in sorted <==> b in blocks by {
      forall b ensures b in sorted <==> b in blocks {
        assert b in sorted <==> b in multiset(sorted);
        assert b in blocks <==> b in multiset(blocks);
      }
    }
    WalkToSleepFacts(sorted, wake, sleep, minDuration);
    WalkToSleep(sorted, MinuteOf(wake), MinuteOf(sleep), minDuration)
  }

  /** With the sleep block `[sleep, wake)` as the only fixed block, the pointer never moves
      (that block ends at wake), so the final gap repeats the in-loop gap: two identical
      wake-to-sleep slots when sleep is at least `minDuration` after wake, and none otherwise
      (in particular none when sleep is numerically before wake). */
  lemma SleepOnlySlots(b: Block, wake: string, sleep: string, minDuration: int)
    requires IsClock(wake) && IsClock(sleep)
    requires b.start == sleep && b.end == wake
    ensures var gap := MinuteOf(sleep) - MinuteOf(wake);
      var one := Slot(wake, sleep, gap, 0.5);
      FindAvailableSlots([b], wake, sleep, minDuration) == if gap >= minDuration then [one, one] else []
  {
    var w: int := MinuteOf(wake);
    var s: int := MinuteOf(sleep);
    assert SortBy([b], StartKey) == [b];
    var st := Walk([b], WalkState([], w), minDuration);
    assert [b][1..] == [];
    var first := Step(WalkState([], w), b, minDuration);
    assert Walk([], first, minDuration) == first;
    assert st == Walk([b][1..], first, minDuration);
    assert st == Step(WalkState([], w), b, minDuration);
    assert st.pointer == w;
    ToTimeOfToMin(wake);
    ToTimeOfToMin(sleep);
    assert MakeSlot(w, s) == Slot(wake, sleep, s - w, 0.5);
  }
}
