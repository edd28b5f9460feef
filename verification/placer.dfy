/**
 `placeActivityBlocks` of lib/circadian.ts: three greedy passes (focus, exercise, break) over
 the slots in descending-energy order, sharing a set of used slots. The source identifies a
 slot by `slots.indexOf(slot)` on the very objects it sorted, which is the slot's position in
 the finder's list; the model carries that position with each slot.
 */
module Placer {
  import opened Wrappers
  import opened TimeText
  import opened Types
  import opened Sorting

  /** A break needs at least this many minutes. */
  const BreakMinDuration: int := 15

  /** The energy and length thresholds of one activity. */
  predicate Fits(slot: Slot, pref: ActivityPref) {
    slot.energy >= pref.minEnergy && slot.duration >= pref.duration
  }

  function ActivityTitle(kind: Label): string {
    if kind == Focus then "Deep Focus Work" else "Physical Activity"
  }

  /** A focus or exercise block: from the slot's start for exactly the preferred duration,
      with the slot's energy as its confidence. */
  function ActivityBlock(slot: Slot, kind: Label, pref: ActivityPref): Block {
    Block(slot.start, ToTime(MinuteOf(slot.start) + pref.duration), kind, ActivityTitle(kind),
          slot.energy, pref.duration)
  }

  /** A break spans the whole slot; low energy makes it a confident choice. */
  function BreakBlock(slot: Slot): Block {
    Block(slot.start, slot.end, Break, "Rest & Recovery", 1.0 - slot.energy, slot.duration)
  }

  /** A slot with its position in the finder's list. */
  type Entry = (nat, Slot)

  function Enumerate(slots: seq<Slot>): (r: seq<Entry>)
    ensures |r| == |slots|
    ensures forall i :: 0 <= i < |r| ==> r[i] == (i, slots[i])
  {
    seq(|slots|, i requires 0 <= i < |slots| => (i, slots[i]))
  }

  function NegatedEnergy(e: Entry): real {
    -e.1.energy
  }

  /** `[...slots].sort((a, b) => b.energy - a.energy)`: a stable descending-energy order. */
  function EnergyOrder(slots: seq<Slot>): seq<Entry> {
    SortBy(Enumerate(slots), NegatedEnergy)
  }

  datatype PassResult = PassResult(blocks: seq<Block>, used: set<nat>)

  /** The focus loop or the exercise loop: skip used slots; give every other slot that fits
      the block of `kind` and mark it used. There is no early exit. */
  function ActivityPass(order: seq<Entry>, used: set<nat>, kind: Label, pref: ActivityPref): PassResult
  {
    if |order| == 0 then PassResult([], used)
    else
      var i := order[0].0;
      var slot := order[0].1;
      if i in used then ActivityPass(order[1..], used, kind, pref)
      else if Fits(slot, pref) then
        var rest := ActivityPass(order[1..], used + {i}, kind, pref);
        PassResult([ActivityBlock(slot, kind, pref)] + rest.blocks, rest.used)
      else ActivityPass(order[1..], used, kind, pref)
  }

  /** The break loop: every unused slot of at least 15 minutes becomes a break. */
  function BreakPass(order: seq<Entry>, used: set<nat>): seq<Block> {
    if |order| == 0 then []
    else
      var i := order[0].0;
      var slot := order[0].1;
      (if i !in used && slot.duration >= BreakMinDuration then [BreakBlock(slot)] else [])
        + BreakPass(order[1..], used)
  }

  /** Which pass would claim `slot` on its own: 0 focus, 1 exercise, 2 break, 3 none. */
  function Rank(slot: Slot, t: Chronotype): nat {
    var prefs := PrefsOf(t);
    if Fits(slot, prefs.focus) then 0
    else if Fits(slot, prefs.exercise) then 1
    else if slot.duration >= BreakMinDuration then 2
    else 3
  }

  /** The reference policy, one slot at a time: focus if it fits, else exercise if it fits,
      else a break if the slot is at least 15 minutes long, else nothing. */
  function Placement(slot: Slot, t: Chronotype): (r: Option<Block>)
    ensures r.Some? <==> slot.duration >= BreakMinDuration
    ensures r.Some? ==> r.value.start == slot.start && r.value.kind in {Focus, Exercise, Break}
    ensures r.Some? && r.value.kind == Focus ==>
              Fits(slot, PrefsOf(t).focus) && r.value.confidence == slot.energy
              && r.value.estimatedDuration == PrefsOf(t).focus.duration
    ensures r.Some? && r.value.kind == Exercise ==>
              !Fits(slot, PrefsOf(t).focus) && Fits(slot, PrefsOf(t).exercise)
              && r.value.confidence == slot.energy
              && r.value.estimatedDuration == PrefsOf(t).exercise.duration
    ensures r.Some? && r.value.kind == Break ==>
              !Fits(slot, PrefsOf(t).focus) && !Fits(slot, PrefsOf(t).exercise)
              && r.value.end == slot.end && r.value.confidence == 1.0 - slot.energy
              && r.value.estimatedDuration == slot.duration
    ensures Fits(slot, PrefsOf(t).focus) ==> r.Some? && r.value.kind == Focus
    ensures r.Some? && r.value.kind != Break ==> IsClock(r.value.end)
    ensures r.Some? && r.value.kind != Break ==>
              MinuteOf(r.value.end) == (MinuteOf(slot.start) + r.value.estimatedDuration) % MinutesPerDay
  {
    var prefs := PrefsOf(t);
    match Rank(slot, t)
    case 0 => Some(ActivityBlock(slot, Focus, prefs.focus))
    case 1 => Some(ActivityBlock(slot, Exercise, prefs.exercise))
    case 2 => Some(BreakBlock(slot))
    case _ => None
  }

  function AsSeq(o: Option<Block>): seq<Block> {
    if o.Some? then [o.value] else []
  }

  function PlacementOf(t: Chronotype): Slot -> seq<Block> {
    (slot: Slot) => AsSeq(Placement(slot, t))
  }

  function EntryPlacementOf(t: Chronotype): Entry -> seq<Block> {
    (e: Entry) => AsSeq(Placement(e.1, t))
  }

  function LongEnoughForBreak(slot: Slot): bool {
    slot.duration >= BreakMinDuration
  }

  /** The blocks of the entries that pass `k` claims, in order. */
  function Select(order: seq<Entry>, t: Chronotype, k: nat): seq<Block> {
    if |order| == 0 then []
    else
      (if Rank(order[0].1, t) == k then AsSeq(Placement(order[0].1, t)) else [])
        + Select(order[1..], t, k)
  }

  ghost predicate DistinctIndices(order: seq<Entry>) {
    forall i, j :: 0 <= i < j < |order| ==> order[i].0 != order[j].0
  }

  function PassKind(k: nat): Label {
    if k == 0 then Focus else Exercise
  }

  function PassPref(t: Chronotype, k: nat): ActivityPref {
    if k == 0 then PrefsOf(t).focus else PrefsOf(t).exercise
  }

  lemma RestIndicesDiffer(order: seq<Entry>, e: Entry)
    requires |order| > 0 && DistinctIndices(order)
    requires e in order[1..]
    ensures e.0 != order[0].0
  {
    var j :| 0 <= j < |order[1..]| && order[1..][j] == e;
    assert order[j + 1] == e;
  }

  /** A pass marks only indices of its own entries. */
  lemma {:induction false} ActivityPassMarksOwn(order: seq<Entry>, used: set<nat>, kind: Label, pref: ActivityPref)
    ensures forall i :: i in ActivityPass(order, used, kind, pref).used ==>
              i in used || exists e :: e in order && e.0 == i
  {
    if |order| > 0 {
      var e := order[0];
      assert e in order;
      assert forall e' :: e' in order[1..] ==> e' in order;
      ActivityPassMarksOwn(order[1..], used, kind, pref);
      ActivityPassMarksOwn(order[1..], used + {e.0}, kind, pref);
    }
  }

  /** Pass `k` (0 focus, 1 exercise) emits exactly the blocks of the entries of rank `k`,
      provided the used set marks exactly the entries of lower rank; afterwards it marks
      exactly those of rank at most `k`. */
  lemma {:induction false} ActivityPassSelects(order: seq<Entry>, used: set<nat>, t: Chronotype, k: nat)
    requires k < 2
    requires DistinctIndices(order)
    requires forall e :: e in order ==> (e.0 in used <==> Rank(e.1, t) < k)
    ensures var r := ActivityPass(order, used, PassKind(k), PassPref(t, k));
      && r.blocks == Select(order, t, k)
      && used <= r.used
      && (forall e :: e in order ==> (e.0 in r.used <==> Rank(e.1, t) <= k))
  {
    if |order| > 0 {
      var e := order[0];
      var rest := order[1..];
      assert e in order;
      assert forall e' :: e' in rest ==> e' in order;
      assert DistinctIndices(rest) by {
        forall i, j | 0 <= i < j < |rest| ensures rest[i].0 != rest[j].0 {
          assert rest[i] == order[i + 1] && rest[j] == order[j + 1];
        }
      }
      var kind, pref := PassKind(k), PassPref(t, k);
      var r := ActivityPass(order, used, kind, pref);
      if e.0 in used {
        ActivityPassSelects(rest, used, t, k);
      } else if Fits(e.1, pref) {
        var used' := used + {e.0};
        forall e' | e' in rest ensures (e'.0 in used' <==> Rank(e'.1, t) < k) {
          RestIndicesDiffer(order, e');
        }
        ActivityPassSelects(rest, used', t, k);
      } else {
        ActivityPassSelects(rest, used, t, k);
        ActivityPassMarksOwn(rest, used, kind, pref);
        forall e' | e' in rest ensures e'.0 != e.0 {
          RestIndicesDiffer(order, e');
        }
      }
    }
  }

  /** The break pass emits exactly the blocks of the entries of rank 2, provided the used set
      marks exactly the entries of lower rank. */
  lemma {:induction false} BreakPassSelects(order: seq<Entry>, used: set<nat>, t: Chronotype)
    requires forall e :: e in order ==> (e.0 in used <==> Rank(e.1, t) < 2)
    ensures BreakPass(order, used) == Select(order, t, 2)
  {
    if |order| > 0 {
      assert order[0] in order;
      assert forall e' :: e' in order[1..] ==> e' in order;
      BreakPassSelects(order[1..], used, t);
    }
  }

  /** Together the three selections hold each entry's placement once. */
  lemma {:induction false} SelectionsCoverPlacements(order: seq<Entry>, t: Chronotype)
    ensures multiset(Select(order, t, 0) + Select(order, t, 1) + Select(order, t, 2))
         == multiset(FlatMap(order, EntryPlacementOf(t)))
  {
    if |order| > 0 {
      var e, rest := order[0], order[1..];
      SelectionsCoverPlacements(rest, t);
      var p := AsSeq(Placement(e.1, t));
      assert FlatMap(order, EntryPlacementOf(t)) == p + FlatMap(rest, EntryPlacementOf(t));
      var rank := Rank(e.1, t);
      assert Select(order, t, 0) == (if rank == 0 then p else []) + Select(rest, t, 0);
      assert Select(order, t, 1) == (if rank == 1 then p else []) + Select(rest, t, 1);
      assert Select(order, t, 2) == (if rank == 2 then p else []) + Select(rest, t, 2);
      assert rank == 3 ==> p == [];
      Regroup(p, Select(rest, t, 0), Select(rest, t, 1), Select(rest, t, 2), rank);
    }
  }

  /** Putting `p` in front of one of three lists adds `p` once to their union. */
  lemma Regroup<T>(p: seq<T>, a0: seq<T>, a1: seq<T>, a2: seq<T>, k: nat)
    requires k < 3 || p == []
    ensures multiset(((if k == 0 then p else []) + a0) + ((if k == 1 then p else []) + a1)
                     + ((if k == 2 then p else []) + a2))
         == multiset(p) + multiset(a0 + a1 + a2)
  {
  }

  lemma {:induction false} EntryPlacements(es: seq<Entry>, slots: seq<Slot>, t: Chronotype)
    requires |es| == |slots|
    requires forall i :: 0 <= i < |es| ==> es[i].1 == slots[i]
    ensures FlatMap(es, EntryPlacementOf(t)) == FlatMap(slots, PlacementOf(t))
  {
    if |es| > 0 {
      EntryPlacements(es[1..], slots[1..], t);
    }
  }

  lemma {:induction false} PlacementCount(slots: seq<Slot>, t: Chronotype)
    ensures |FlatMap(slots, PlacementOf(t))| == Count(slots, LongEnoughForBreak)
  {
    if |slots| > 0 {
      PlacementCount(slots[1..], t);
    }
  }

  lemma EnergyOrderIndices(slots: seq<Slot>)
    ensures DistinctIndices(EnergyOrder(slots))
  {
    var es := Enumerate(slots);
    var order := EnergyOrder(slots);
    assert Distinct(es);
    SortKeepsDistinct(es, NegatedEnergy);
    forall i, j | 0 <= i < j < |order| ensures order[i].0 != order[j].0 {
      assert order[i] in multiset(es) && order[j] in multiset(es);
      assert order[i] == (order[i].0, slots[order[i].0]);
      assert order[j] == (order[j].0, slots[order[j].0]);
    }
  }

  /** The three passes place, slot by slot, exactly what the first-fit policy gives the slot
      on its own: one block per slot of at least 15 minutes and none for shorter slots. */
  lemma PassesAreFirstFit(slots: seq<Slot>, t: Chronotype)
    ensures var order := EnergyOrder(slots);
      var prefs := PrefsOf(t);
      var focus := ActivityPass(order, {}, Focus, prefs.focus);
      var exercise := ActivityPass(order, focus.used, Exercise, prefs.exercise);
      multiset(focus.blocks + exercise.blocks + BreakPass(order, exercise.used))
        == multiset(FlatMap(slots, PlacementOf(t)))
  {
    var order := EnergyOrder(slots);
    var prefs := PrefsOf(t);
    EnergyOrderIndices(slots);
    ActivityPassSelects(order, {}, t, 0);
    var focus := ActivityPass(order, {}, Focus, prefs.focus);
    ActivityPassSelects(order, focus.used, t, 1);
    var exercise := ActivityPass(order, focus.used, Exercise, prefs.exercise);
    BreakPassSelects(order, exercise.used, t);
    SelectionsCoverPlacements(order, t);
    FlatMapPermutation(order, Enumerate(slots), EntryPlacementOf(t));
    EntryPlacements(Enumerate(slots), slots, t);
  }

  lemma PlacedComeFromSlots(slots: seq<Slot>, t: Chronotype, r: seq<Block>)
    requires multiset(r) == multiset(FlatMap(slots, PlacementOf(t)))
    ensures forall b :: b in r ==> exists slot :: slot in slots && Placement(slot, t) == Some(b)
  {
    forall b | b in r ensures exists slot :: slot in slots && Placement(slot, t) == Some(b) {
      assert b in multiset(FlatMap(slots, PlacementOf(t)));
      FlatMapMember(slots, PlacementOf(t), b);
      var slot :| slot in slots && b in PlacementOf(t)(slot);
    }
  }

  /** `placeActivityBlocks(slots, energyCurve, type)`. The curve argument is never read by the
      source and is not a parameter here. Each slot yields at most one block, exactly one when
      it is at least 15 minutes long, and that block is the slot's first-fit placement. */
  function PlaceActivityBlocks(slots: seq<Slot>, t: Chronotype): (r: seq<Block>)
    ensures multiset(r) == multiset(FlatMap(slots, PlacementOf(t)))
    ensures |r| == Count(slots, LongEnoughForBreak)
    ensures forall b :: b in r ==> exists slot :: slot in slots && Placement(slot, t) == Some(b)
  {
    var order := EnergyOrder(slots);
    var prefs := PrefsOf(t);
    var focus := ActivityPass(order, {}, Focus, prefs.focus);
    var exercise := ActivityPass(order, focus.used, Exercise, prefs.exercise);
    var r := focus.blocks + exercise.blocks + BreakPass(order, exercise.used);
    PassesAreFirstFit(slots, t);
    PlacementCount(slots, t);
    assert |r| == |multiset(r)|;
    PlacedComeFromSlots(slots, t, r);
    r
  }

  /** An activity block placed in a free slot ends inside that slot. */
  lemma ActivityWithinSlot(slot: Slot, kind: Label, pref: ActivityPref)
    requires IsClock(slot.start) && IsClock(slot.end)
    requires slot.duration == MinuteOf(slot.end) - MinuteOf(slot.start)
    requires Fits(slot, pref) && pref.duration >= 0
    ensures var b := ActivityBlock(slot, kind, pref);
      && IsClock(b.end)
      && MinuteOf(b.start) <= MinuteOf(b.end) == MinuteOf(b.start) + pref.duration <= MinuteOf(slot.end)
  {
    ResidueOfMinute(MinuteOf(slot.start) + pref.duration);
  }
}
