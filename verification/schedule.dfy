/**
 `buildSchedule` of lib/circadian.ts: the sleep block and one block per commitment are fixed;
 the slot finder runs over them (sorting them in place by start); the placer fills the slots;
 the fixed blocks, in their sorted order, followed by the generated ones, are sorted by start.
 The energy curve the source computes here is handed to the placer, which never reads it, so
 it does not appear.
 */
module Schedule {
  import opened Wrappers
  import opened TimeText
  import opened Types
  import opened Sorting
  import opened Slots
  import opened Placer

  /** The sleep block `[sleep, wake)` with its wrap-around length. */
  function SleepBlock(wake: string, sleep: string): Block {
    Block(sleep, wake, Sleep, "Sleep", 1.0, WrapDuration(MinuteOf(sleep), MinuteOf(wake)))
  }

  /** A commitment as a block. Its estimated duration is the plain difference, which is
      negative for a commitment that crosses midnight. */
  function CommitmentBlock(c: Commitment): Block {
    Block(c.start, c.end, Label.Commitment, c.title, 1.0, MinuteOf(c.end) - MinuteOf(c.start))
  }

  predicate ClockCommitment(c: Commitment) {
    IsClock(c.start) && IsClock(c.end)
  }

  function CommitmentBlocks(cs: seq<Commitment>): (r: seq<Block>)
    ensures |r| == |cs|
    ensures forall i :: 0 <= i < |cs| ==> r[i] == CommitmentBlock(cs[i])
  {
    seq(|cs|, i requires 0 <= i < |cs| => CommitmentBlock(cs[i]))
  }

  /** The blocks `buildSchedule` pushes before looking for free time. */
  function FixedBlocks(wake: string, sleep: string, cs: seq<Commitment>): seq<Block> {
    [SleepBlock(wake, sleep)] + CommitmentBlocks(cs)
  }

  predicate Fixed(b: Block) {
    b.kind == Sleep || b.kind == Label.Commitment
  }

  /** The free slots of the day. */
  function DaySlots(wake: string, sleep: string, cs: seq<Commitment>): seq<Slot>
    requires IsClock(wake) && IsClock(sleep)
    requires forall c :: c in cs ==> ClockCommitment(c)
  {
    FixedAreClockBlocks(wake, sleep, cs);
    FindAvailableSlots(FixedBlocks(wake, sleep, cs), wake, sleep, DefaultMinDuration)
  }

  /** The generated activity blocks of the day. */
  function Generated(wake: string, sleep: string, t: Chronotype, cs: seq<Commitment>): seq<Block>
    requires IsClock(wake) && IsClock(sleep)
    requires forall c :: c in cs ==> ClockCommitment(c)
  {
    PlaceActivityBlocks(DaySlots(wake, sleep, cs), t)
  }

  lemma FixedAreClockBlocks(wake: string, sleep: string, cs: seq<Commitment>)
    requires IsClock(wake) && IsClock(sleep)
    requires forall c :: c in cs ==> ClockCommitment(c)
    ensures forall b :: b in FixedBlocks(wake, sleep, cs) ==> ClockBlock(b) && Fixed(b) && b.confidence == 1.0
  {
    var sb := SleepBlock(wake, sleep);
    var cbs := CommitmentBlocks(cs);
    var fixed := FixedBlocks(wake, sleep, cs);
    forall b | b in fixed ensures ClockBlock(b) && Fixed(b) && b.confidence == 1.0 {
      if b != sb {
        var i :| 0 <= i < |fixed| && fixed[i] == b;
        assert b == cbs[i - 1];
        assert cs[i - 1] in cs;
      }
    }
  }

  lemma {:induction false} FixedFacts(wake: string, sleep: string, cs: seq<Commitment>)
    ensures var fixed := FixedBlocks(wake, sleep, cs);
      && SleepBlock(wake, sleep) in fixed
      && (forall c :: c in cs ==> CommitmentBlock(c) in fixed)
      && Count(fixed, HasLabel(Sleep)) == 1
      && Count(fixed, HasLabel(Label.Commitment)) == |cs|
      && Count(fixed, HasLabel(Focus)) == 0
      && Count(fixed, HasLabel(Exercise)) == 0
      && Count(fixed, HasLabel(Break)) == 0
  {
    var sb := SleepBlock(wake, sleep);
    var cbs := CommitmentBlocks(cs);
    var fixed := FixedBlocks(wake, sleep, cs);
    forall c | c in cs ensures CommitmentBlock(c) in fixed {
      var i :| 0 <= i < |cs| && cs[i] == c;
      assert fixed[i + 1] == cbs[i];
    }
    assert forall b :: b in cbs ==> b.kind == Label.Commitment;
    assert [sb][1..] == [];
    forall l ensures Count(fixed, HasLabel(l)) == Count([sb], HasLabel(l)) + Count(cbs, HasLabel(l)) {
      CountAppend([sb], cbs, HasLabel(l));
    }
    CountNone(cbs, HasLabel(Sleep));
    CountAll(cbs, HasLabel(Label.Commitment));
    CountNone(cbs, HasLabel(Focus));
    CountNone(cbs, HasLabel(Exercise));
    CountNone(cbs, HasLabel(Break));
  }

  /** What one placed block inherits from its free slot: a generated kind, clock-text ends,
      a start no earlier than wake, and confidence 0.5 (every slot's energy is the averaging
      helper's default, so a focus or exercise block has confidence 0.5 and a break 1 - 0.5). */
  lemma PlacedBlockFacts(sl: Slot, t: Chronotype, wake: int, b: Block)
    requires GoodSlot(sl, wake, DefaultMinDuration)
    requires Placement(sl, t) == Some(b)
    ensures !Fixed(b) && ClockBlock(b) && b.confidence == 0.5 && wake <= MinuteOf(b.start)
  {
  }

  /** The generated blocks: one per free slot, each with the facts above. */
  lemma GeneratedFacts(slots: seq<Slot>, t: Chronotype, wake: int)
    requires forall sl :: sl in slots ==> GoodSlot(sl, wake, DefaultMinDuration)
    ensures var g := PlaceActivityBlocks(slots, t);
      && |g| == |slots|
      && (forall b :: b in g ==> !Fixed(b) && ClockBlock(b) && b.confidence == 0.5 && wake <= MinuteOf(b.start))
  {
    var g := PlaceActivityBlocks(slots, t);
    CountAll(slots, LongEnoughForBreak);
    forall b | b in g
      ensures !Fixed(b) && ClockBlock(b) && b.confidence == 0.5 && wake <= MinuteOf(b.start)
    {
      var sl :| sl in slots && Placement(sl, t) == Some(b);
      PlacedBlockFacts(sl, t, wake, b);
    }
  }

  /** Membership, length and counts of a schedule assembled from fixed and generated blocks. */
  lemma AssembledFacts(fixed: seq<Block>, g: seq<Block>, r: seq<Block>)
    requires multiset(r) == multiset(fixed) + multiset(g)
    ensures forall b :: b in r <==> b in fixed || b in g
    ensures |r| == |fixed| + |g|
    ensures forall l :: Count(r, HasLabel(l)) == Count(fixed, HasLabel(l)) + Count(g, HasLabel(l))
  {
    forall b ensures b in r <==> b in fixed || b in g {
      assert b in r <==> b in multiset(r);
      assert b in fixed <==> b in multiset(fixed);
      assert b in g <==> b in multiset(g);
    }
    assert |r| == |multiset(r)| == |fixed| + |g|;
    forall l ensures Count(r, HasLabel(l)) == Count(fixed, HasLabel(l)) + Count(g, HasLabel(l)) {
      CountAssembled(fixed, g, r, HasLabel(l));
    }
  }

  /** Counting over a schedule assembled from the fixed and the generated blocks. */
  lemma CountAssembled(fixed: seq<Block>, g: seq<Block>, r: seq<Block>, p: Block -> bool)
    requires multiset(r) == multiset(fixed) + multiset(g)
    ensures Count(r, p) == Count(fixed, p) + Count(g, p)
  {
    CountPermutation(r, fixed + g, p);
    CountAppend(fixed, g, p);
  }

  /** Blocks of the generated kinds: each is a focus, exercise or break block. */
  lemma {:induction false} GeneratedKindCounts(g: seq<Block>)
    requires forall b :: b in g ==> !Fixed(b) && b.kind in {Focus, Exercise, Break}
    ensures Count(g, HasLabel(Focus)) + Count(g, HasLabel(Exercise)) + Count(g, HasLabel(Break)) == |g|
  {
    if |g| > 0 {
      assert g[0] in g;
      assert forall b :: b in g[1..] ==> b in g;
      GeneratedKindCounts(g[1..]);
    }
  }

  /** `[...blocks, ...activityBlocks].sort(by start)`, where `blocks` was already sorted in
      place by the slot finder. */
  function Assemble(fixed: seq<Block>, g: seq<Block>): (r: seq<Block>)
    ensures SortedBy(r, StartKey)
    ensures multiset(r) == multiset(fixed) + multiset(g)
  {
    SortBy(SortBy(fixed, StartKey) + g, StartKey)
  }

  lemma ScheduleCounts(wake: string, sleep: string, t: Chronotype, cs: seq<Commitment>)
    requires IsClock(wake) && IsClock(sleep)
    requires forall c :: c in cs ==> ClockCommitment(c)
    ensures var r := Assemble(FixedBlocks(wake, sleep, cs), Generated(wake, sleep, t, cs));
      && |r| == 1 + |cs| + |DaySlots(wake, sleep, cs)|
      && SleepBlock(wake, sleep) in r && CountLabel(r, Sleep) == 1
      && (forall c :: c in cs ==> CommitmentBlock(c) in r)
      && CountLabel(r, Label.Commitment) == |cs|
      && CountLabel(r, Focus) + CountLabel(r, Exercise) + CountLabel(r, Break) == |DaySlots(wake, sleep, cs)|
  {
    var fixed := FixedBlocks(wake, sleep, cs);
    var slots := DaySlots(wake, sleep, cs);
    var g := Generated(wake, sleep, t, cs);
    var r := Assemble(fixed, g);
    FixedAreClockBlocks(wake, sleep, cs);
    FixedFacts(wake, sleep, cs);
    GeneratedFacts(slots, t, MinuteOf(wake));
    AssembledFacts(fixed, g, r);
    CountNone(g, HasLabel(Sleep));
    CountNone(g, HasLabel(Label.Commitment));
    GeneratedKindCounts(g);
  }

  lemma ScheduleBlocks(wake: string, sleep: string, t: Chronotype, cs: seq<Commitment>)
    requires IsClock(wake) && IsClock(sleep)
    requires forall c :: c in cs ==> ClockCommitment(c)
    ensures var r := Assemble(FixedBlocks(wake, sleep, cs), Generated(wake, sleep, t, cs));
      && (forall b :: b in r ==> ClockBlock(b) && ConfidenceInRange(b))
      && (forall b :: b in r && !Fixed(b) ==>
            && b.confidence == 0.5
            && MinuteOf(wake) <= MinuteOf(b.start)
            && exists sl :: sl in DaySlots(wake, sleep, cs) && Placement(sl, t) == Some(b))
  {
    var fixed := FixedBlocks(wake, sleep, cs);
    var slots := DaySlots(wake, sleep, cs);
    var g := Generated(wake, sleep, t, cs);
    var r := Assemble(fixed, g);
    FixedAreClockBlocks(wake, sleep, cs);
    GeneratedFacts(slots, t, MinuteOf(wake));
    AssembledFacts(fixed, g, r);
  }

  /** `buildSchedule(wake, sleep, type, commitments)`: sorted by start; exactly one sleep
      block, the `[sleep, wake)` one; one block per commitment; one generated block per free
      slot, each the slot's first-fit placement, none before wake; clock-text ends and
      confidences within [0, 1] throughout. */
  function BuildSchedule(wake: string, sleep: string, t: Chronotype, cs: seq<Commitment>): (r: seq<Block>)
    requires IsClock(wake) && IsClock(sleep)
    requires forall c :: c in cs ==> ClockCommitment(c)
    ensures SortedBy(r, StartKey)
    ensures multiset(r) == multiset(FixedBlocks(wake, sleep, cs)) + multiset(Generated(wake, sleep, t, cs))
    ensures |r| == 1 + |cs| + |DaySlots(wake, sleep, cs)|
    ensures SleepBlock(wake, sleep) in r && CountLabel(r, Sleep) == 1
    ensures forall c :: c in cs ==> CommitmentBlock(c) in r
    ensures CountLabel(r, Label.Commitment) == |cs|
    ensures CountLabel(r, Focus) + CountLabel(r, Exercise) + CountLabel(r, Break) == |DaySlots(wake, sleep, cs)|
    ensures forall b :: b in r ==> ClockBlock(b) && ConfidenceInRange(b)
    ensures forall b :: b in r && !Fixed(b) ==>
              && b.confidence == 0.5
              && MinuteOf(wake) <= MinuteOf(b.start)
              && exists sl :: sl in DaySlots(wake, sleep, cs) && Placement(sl, t) == Some(b)
  {
    ScheduleCounts(wake, sleep, t, cs);
    ScheduleBlocks(wake, sleep, t, cs);
    Assemble(FixedBlocks(wake, sleep, cs), Generated(wake, sleep, t, cs))
  }

  /** Every free slot has energy 0.5, below the morning type's focus threshold of 0.6, so a
      morning schedule never holds a focus block. */
  lemma MorningNeverFocus(wake: string, sleep: string, cs: seq<Commitment>)
    requires IsClock(wake) && IsClock(sleep)
    requires forall c :: c in cs ==> ClockCommitment(c)
    ensures CountLabel(BuildSchedule(wake, sleep, Morning, cs), Focus) == 0
  {
    var r := BuildSchedule(wake, sleep, Morning, cs);
    forall b | b in r
      ensures !HasLabel(Focus)(b)
    {
      MorningBlockNotFocus(wake, sleep, cs, b);
    }
    CountNone(r, HasLabel(Focus));
  }

  lemma MorningBlockNotFocus(wake: string, sleep: string, cs: seq<Commitment>, b: Block)
    requires IsClock(wake) && IsClock(sleep)
    requires forall c :: c in cs ==> ClockCommitment(c)
    requires b in BuildSchedule(wake, sleep, Morning, cs)
    ensures b.kind != Focus
  {
    var slots := DaySlots(wake, sleep, cs);
    assert forall sl :: sl in slots ==> sl.energy == 0.5;
    PlacedNotFocus(BuildSchedule(wake, sleep, Morning, cs), slots, b);
  }

  /** In a schedule whose generated blocks are morning placements in slots of energy 0.5, no
      block is a focus block. */
  lemma PlacedNotFocus(r: seq<Block>, slots: seq<Slot>, b: Block)
    requires forall sl :: sl in slots ==> sl.energy == 0.5
    requires forall b :: b in r && !Fixed(b) ==> exists sl :: sl in slots && Placement(sl, Morning) == Some(b)
    requires b in r
    ensures b.kind != Focus
  {
    if !Fixed(b) {
      var sl :| sl in slots && Placement(sl, Morning) == Some(b);
      MorningSlotNotFocus(sl, b);
    }
  }

  /** A slot of energy 0.5 is below the morning type's focus threshold. */
  lemma MorningSlotNotFocus(sl: Slot, b: Block)
    requires sl.energy == 0.5 && Placement(sl, Morning) == Some(b)
    ensures b.kind != Focus
  {
  }
}
