/**
 Whole-day outcomes of `buildSchedule` worked out from the model: without commitments, the
 repeated wake-to-sleep slot, a sleep time numerically before the wake time, and equal wake
 and sleep times; with one meeting, the free slots around it.
 */
module Scenarios {
  import opened Wrappers
  import opened TimeText
  import opened Types
  import opened Sorting
  import opened Slots
  import opened Placer
  import opened Schedule
  import opened Durations
  import opened Confidence

  /** The focus block an intermediate type gets in a slot starting at 07:00. */
  function EarlyFocus(): Block {
    Block("07:00", "08:30", Focus, "Deep Focus Work", 0.5, 90)
  }

  function DaySlot(): Slot {
    Slot("07:00", "23:00", 960, 0.5)
  }

  lemma ClockTexts()
    ensures IsClock("07:00") && MinuteOf("07:00") == 420
    ensures IsClock("08:30") && MinuteOf("08:30") == 510
    ensures IsClock("23:00") && MinuteOf("23:00") == 1380
  {
  }

  lemma EmptyDaySlots()
    ensures DaySlots("07:00", "23:00", []) == [DaySlot(), DaySlot()]
  {
    ClockTexts();
    assert CommitmentBlocks([]) == [];
    assert FixedBlocks("07:00", "23:00", []) == [SleepBlock("07:00", "23:00")];
    SleepOnlySlots(SleepBlock("07:00", "23:00"), "07:00", "23:00", DefaultMinDuration);
  }

  lemma DaySlotFocus()
    ensures Placement(DaySlot(), Intermediate) == Some(EarlyFocus())
  {
    ClockTexts();
    ClockInjective(ToTime(510), "08:30");
  }

  lemma EmptyDayGenerated()
    ensures multiset(Generated("07:00", "23:00", Intermediate, [])) == multiset{EarlyFocus(), EarlyFocus()}
  {
    EmptyDaySlots();
    DaySlotFocus();
    PlacedTwice(DaySlot(), Intermediate, EarlyFocus());
  }

  /** The same slot listed twice yields its placement twice. */
  lemma PlacedTwice(sl: Slot, t: Chronotype, b: Block)
    requires Placement(sl, t) == Some(b)
    ensures FlatMap([sl, sl], PlacementOf(t)) == [b, b]
  {
    var slots := [sl, sl];
    assert PlacementOf(t)(sl) == [b];
    assert slots[1..][1..] == [];
    assert FlatMap(slots[1..], PlacementOf(t)) == [b];
  }

  /** Three blocks sorted by start, two starting at 07:00 and one at 23:00, are the two early
      ones followed by the late one. */
  lemma SortedThree(r: seq<Block>, early: Block, late: Block)
    requires SortedBy(r, StartKey)
    requires multiset(r) == multiset{early, early, late}
    requires StartKey(early) < StartKey(late)
    ensures r == [early, early, late]
  {
    assert |r| == |multiset(r)| == 3;
    assert r[0] in multiset(r) && r[1] in multiset(r) && r[2] in multiset(r);
    if r[2] != late {
      assert false;
    }
    assert multiset(r[..2]) == multiset{early, early} by {
      assert r == r[..2] + [r[2]];
    }
    assert r[0] in multiset(r[..2]) && r[1] in multiset(r[..2]);
  }

  lemma NoCommitmentsFixed(wake: string, sleep: string)
    ensures FixedBlocks(wake, sleep, []) == [SleepBlock(wake, sleep)]
  {
    assert CommitmentBlocks([]) == [];
  }

  /** With no free slot, the day is the night alone. */
  lemma NightOnly(wake: string, sleep: string, t: Chronotype)
    requires IsClock(wake) && IsClock(sleep)
    requires DaySlots(wake, sleep, []) == []
    ensures BuildSchedule(wake, sleep, t, []) == [SleepBlock(wake, sleep)]
  {
    NoCommitmentsFixed(wake, sleep);
    var g := Generated(wake, sleep, t, []);
    assert |g| == 0;
    assert SortBy([SleepBlock(wake, sleep)], StartKey) == [SleepBlock(wake, sleep)];
  }

  /** With wake 07:00, sleep 23:00 and no commitments, the single free slot is found twice,
      so the intermediate type's day is two identical focus blocks 07:00-08:30 and the night. */
  lemma RepeatedSlotDay()
    ensures BuildSchedule("07:00", "23:00", Intermediate, [])
         == [EarlyFocus(), EarlyFocus(), SleepBlock("07:00", "23:00")]
  {
    NoCommitmentsFixed("07:00", "23:00");
    RepeatedSlotAssembled();
  }

  lemma RepeatedSlotAssembled()
    ensures Assemble([SleepBlock("07:00", "23:00")], Generated("07:00", "23:00", Intermediate, []))
         == [EarlyFocus(), EarlyFocus(), SleepBlock("07:00", "23:00")]
  {
    ClockTexts();
    EmptyDayGenerated();
    AssembleNight(Generated("07:00", "23:00", Intermediate, []), EarlyFocus(), SleepBlock("07:00", "23:00"));
  }

  lemma AssembleNight(g: seq<Block>, early: Block, night: Block)
    requires multiset(g) == multiset{early, early}
    requires StartKey(early) < StartKey(night)
    ensures Assemble([night], g) == [early, early, night]
  {
    SortedThree(Assemble([night], g), early, night);
  }

  /** That day lasts 90 + 90 + 480 minutes and its confidence is the mean of 0.5, 0.5 and 1.0
      rounded to two decimals. */
  lemma RepeatedSlotDayMetrics()
    ensures var day := [EarlyFocus(), EarlyFocus(), SleepBlock("07:00", "23:00")];
      TotalDuration(day) == 660 && DailyConfidence(day) == 0.67
  {
    ClockTexts();
    var day := [EarlyFocus(), EarlyFocus(), SleepBlock("07:00", "23:00")];
    assert day[1..][1..][1..] == [];
    assert ConfidenceSum(day) == 2.0;
    assert (100.0 * (2.0 / 3.0) + 0.5).Floor == 67;
  }

  /** Waking at 09:00 and sleeping at 01:00 leaves no free slot: the day is the eight-hour
      night alone. */
  lemma LateSleeperDay(t: Chronotype)
    ensures BuildSchedule("09:00", "01:00", t, []) == [SleepBlock("09:00", "01:00")]
    ensures SleepBlock("09:00", "01:00").estimatedDuration == 480
  {
    assert IsClock("09:00") && MinuteOf("09:00") == 540;
    assert IsClock("01:00") && MinuteOf("01:00") == 60;
    NoCommitmentsFixed("09:00", "01:00");
    SleepOnlySlots(SleepBlock("09:00", "01:00"), "09:00", "01:00", DefaultMinDuration);
    NightOnly("09:00", "01:00", t);
  }

  /** Equal wake and sleep times make the night a whole day long and leave no free slot. */
  lemma EqualTimesDay(clock: string, t: Chronotype)
    requires IsClock(clock)
    ensures BuildSchedule(clock, clock, t, []) == [SleepBlock(clock, clock)]
    ensures SleepBlock(clock, clock).estimatedDuration == MinutesPerDay
  {
    NoCommitmentsFixed(clock, clock);
    SleepOnlySlots(SleepBlock(clock, clock), clock, clock, DefaultMinDuration);
    NightOnly(clock, clock, t);
  }

  function Meeting(): Commitment {
    Commitment.Commitment("09:00", "10:00", "Meeting", None)
  }

  lemma MeetingClockTexts()
    ensures IsClock("09:00") && MinuteOf("09:00") == 540
    ensures IsClock("10:00") && MinuteOf("10:00") == 600
  {
  }

  /** A commitment inside the waking day: it starts at least 30 minutes after wake and ends
      at least 30 minutes before sleep, with sleep after wake. */
  predicate InsideDay(wake: string, sleep: string, c: Commitment) {
    && IsClock(wake) && IsClock(sleep) && ClockCommitment(c)
    && MinuteOf(c.start) - MinuteOf(wake) >= DefaultMinDuration
    && MinuteOf(c.start) < MinuteOf(c.end)
    && MinuteOf(sleep) - MinuteOf(c.end) >= DefaultMinDuration
  }

  /** Sorted by start, the commitment comes before the night, which starts at sleep. */
  lemma InsideDaySorted(wake: string, sleep: string, c: Commitment)
    requires InsideDay(wake, sleep, c)
    ensures SortBy(FixedBlocks(wake, sleep, [c]), StartKey) == [CommitmentBlock(c), SleepBlock(wake, sleep)]
  {
    var night, block := SleepBlock(wake, sleep), CommitmentBlock(c);
    assert CommitmentBlocks([c]) == [block];
    assert FixedBlocks(wake, sleep, [c]) == [night, block];
    assert SortBy([block], StartKey) == [block];
    assert Insert(night, [block], StartKey) == [block, night];
  }

  /** The walk from wake emits the gap before the commitment and the gap from its end to the
      night, and stops at the commitment's end, because the night ends at wake. */
  lemma InsideDayWalk(wake: string, sleep: string, c: Commitment)
    requires InsideDay(wake, sleep, c)
    ensures var w, s, cs, ce := MinuteOf(wake), MinuteOf(sleep), MinuteOf(c.start), MinuteOf(c.end);
      Walk([CommitmentBlock(c), SleepBlock(wake, sleep)], WalkState([], w), DefaultMinDuration)
      == WalkState([MakeSlot(w, cs), MakeSlot(ce, s)], ce)
  {
    var night, block := SleepBlock(wake, sleep), CommitmentBlock(c);
    var st0 := WalkState([], MinuteOf(wake));
    var st1 := Step(st0, block, DefaultMinDuration);
    var st2 := Step(st1, night, DefaultMinDuration);
    assert [block, night][1..] == [night];
    assert Walk([night], st1, DefaultMinDuration) == st2;
  }

  /** Slots between clock texts name those texts. */
  lemma ClockSlot(a: string, b: string)
    requires IsClock(a) && IsClock(b)
    ensures MakeSlot(MinuteOf(a), MinuteOf(b)) == Slot(a, b, MinuteOf(b) - MinuteOf(a), 0.5)
  {
    ToTimeOfToMin(a);
    ToTimeOfToMin(b);
  }

  /** The day's slots are the walk to sleep over the fixed blocks in start order. */
  lemma DaySlotsWalk(wake: string, sleep: string, cs: seq<Commitment>, sorted: seq<Block>)
    requires IsClock(wake) && IsClock(sleep)
    requires forall c :: c in cs ==> ClockCommitment(c)
    requires SortBy(FixedBlocks(wake, sleep, cs), StartKey) == sorted
    ensures DaySlots(wake, sleep, cs) == WalkToSleep(sorted, MinuteOf(wake), MinuteOf(sleep), DefaultMinDuration)
  {
  }

  /** A walk that ends far enough before sleep is followed by the final gap. */
  lemma WalkThenFinalGap(sorted: seq<Block>, w: nat, s: int, st: WalkState)
    requires Walk(sorted, WalkState([], w), DefaultMinDuration) == st
    requires s - st.pointer >= DefaultMinDuration
    ensures WalkToSleep(sorted, w, s, DefaultMinDuration) == st.slots + [MakeSlot(st.pointer, s)]
  {
  }

  /** The finder's slots for one commitment inside the waking day, as minute intervals. */
  lemma InsideDayFound(wake: string, sleep: string, c: Commitment)
    requires InsideDay(wake, sleep, c)
    ensures var w, s, cs, ce := MinuteOf(wake), MinuteOf(sleep), MinuteOf(c.start), MinuteOf(c.end);
      DaySlots(wake, sleep, [c]) == [MakeSlot(w, cs), MakeSlot(ce, s), MakeSlot(ce, s)]
  {
    var w, s, cs, ce := MinuteOf(wake), MinuteOf(sleep), MinuteOf(c.start), MinuteOf(c.end);
    var sorted := [CommitmentBlock(c), SleepBlock(wake, sleep)];
    InsideDaySorted(wake, sleep, c);
    DaySlotsWalk(wake, sleep, [c], sorted);
    InsideDayWalk(wake, sleep, c);
    WalkThenFinalGap(sorted, w, s, WalkState([MakeSlot(w, cs), MakeSlot(ce, s)], ce));
  }

  /** One commitment inside the waking day: the free slots are the gap before it, then the gap
      from its end to sleep twice (once before the night block, once as the final gap). */
  lemma OneCommitmentSlots(wake: string, sleep: string, c: Commitment)
    requires InsideDay(wake, sleep, c)
    ensures var before := Slot(wake, c.start, MinuteOf(c.start) - MinuteOf(wake), 0.5);
      var after := Slot(c.end, sleep, MinuteOf(sleep) - MinuteOf(c.end), 0.5);
      DaySlots(wake, sleep, [c]) == [before, after, after]
  {
    InsideDayFound(wake, sleep, c);
    ClockSlot(wake, c.start);
    ClockSlot(c.end, sleep);
  }

  /** A 09:00-10:00 meeting between wake 07:00 and sleep 23:00 leaves 07:00-09:00 and then
      10:00-23:00 twice. */
  lemma OneMeetingSlots()
    ensures DaySlots("07:00", "23:00", [Meeting()])
      == [Slot("07:00", "09:00", 120, 0.5), Slot("10:00", "23:00", 780, 0.5), Slot("10:00", "23:00", 780, 0.5)]
  {
    ClockTexts();
    MeetingClockTexts();
    OneCommitmentSlots("07:00", "23:00", Meeting());
  }
}
