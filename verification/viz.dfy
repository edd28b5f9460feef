/**
 The timeline preparation of lib/viz.ts: blocks that cross midnight are cut into a piece ending
 at the end of the day and a piece starting at midnight, and the pieces are ordered by start
 minute. Times are read with `MinuteOf`, the engine's `toMin` on clock texts.
 */
module Viz {
  import opened TimeText
  import opened Types
  import opened Sorting
  import opened Durations
  import opened Wrappers

  /** A block drawn on the timeline, with its start and end minutes (`endMin` may be 1440). */
  datatype Piece = Piece(block: Block, startMin: int, endMin: int)

  /** The test `endMin <= startMin` that decides a block crosses midnight. */
  predicate Wraps(b: Block) {
    MinuteOf(b.end) <= MinuteOf(b.start)
  }

  /** The minutes a piece spans on the timeline. */
  function PieceLength(p: Piece): int {
    p.endMin - p.startMin
  }

  /** Minute `x` of the day lies inside the piece. */
  predicate InPiece(p: Piece, x: int) {
    p.startMin <= x < p.endMin
  }

  /** Minute `x` of the day is one of the minutes the block occupies, counting forward from its
      start for its wrap-around duration. */
  predicate Occupies(b: Block, x: int) {
    0 <= x < MinutesPerDay && (x - MinuteOf(b.start)) % MinutesPerDay < BlockMinutes(b)
  }

  /** The piece keeps everything of the block but its clock texts. */
  predicate SameActivity(p: Piece, b: Block) {
    && p.block.kind == b.kind && p.block.title == b.title
    && p.block.confidence == b.confidence && p.block.estimatedDuration == b.estimatedDuration
  }

  /** `splitAcrossMidnight`: a block that does not cross midnight is one piece; one that does
      becomes the piece from its start to the end of the day (drawn up to 1440, labelled
      "23:59") and the piece from "00:00" to its end. */
  function SplitAcrossMidnight(b: Block): (r: seq<Piece>)
    ensures |r| == (if Wraps(b) then 2 else 1)
    ensures forall i :: 0 <= i < |r| ==> SameActivity(r[i], b)
    ensures forall i :: 0 <= i < |r| ==> 0 <= r[i].startMin <= r[i].endMin <= MinutesPerDay
    ensures r[0].startMin == MinuteOf(b.start) && r[0].block.start == b.start
    ensures !Wraps(b) ==> r[0].block == b && r[0].endMin == MinuteOf(b.end)
    ensures Wraps(b) ==> r[1].startMin == 0 && r[1].endMin == MinuteOf(b.end)
    ensures Wraps(b) ==> r[1].block.start == "00:00" && r[1].block.end == b.end
    ensures Wraps(b) ==> r[0].endMin == MinutesPerDay && r[0].block.end == "23:59"
    ensures Wraps(b) ==> r[1].endMin <= r[0].startMin
    ensures PieceLength(r[0]) + (if |r| == 2 then PieceLength(r[1]) else 0) == BlockMinutes(b)
  {
    var s, e := MinuteOf(b.start), MinuteOf(b.end);
    if e > s then [Piece(b, s, e)]
    else [Piece(b.(end := "23:59"), s, MinutesPerDay), Piece(b.(start := "00:00"), 0, e)]
  }

  /** On a clock block the split reads its minutes through `toMin`, as `splitAcrossMidnight`
      does: the block wraps exactly when `toMin(end) <= toMin(start)`, the first piece starts
      at `toMin(start)` and the last ends at `toMin(end)`. */
  lemma SplitReadsToMin(b: Block)
    requires ClockBlock(b)
    ensures var r := SplitAcrossMidnight(b);
      && ToMin(b.start) == Some(r[0].startMin)
      && ToMin(b.end) == Some(r[|r| - 1].endMin)
      && (|r| == 2 <==> ToMin(b.end).value <= ToMin(b.start).value)
  {
    ClockToMin(b.start);
    ClockToMin(b.end);
  }

  /** The pieces of a block cover exactly the minutes the block occupies. */
  lemma SplitCoversBlock(b: Block, x: int)
    requires 0 <= x < MinutesPerDay
    ensures (exists i :: 0 <= i < |SplitAcrossMidnight(b)| && InPiece(SplitAcrossMidnight(b)[i], x))
        <==> Occupies(b, x)
  {
    var r := SplitAcrossMidnight(b);
    var s, e := MinuteOf(b.start), MinuteOf(b.end);
    if x >= s {
      assert (x - s) % MinutesPerDay == x - s;
      if !Wraps(b) {
        assert InPiece(r[0], x) <==> Occupies(b, x);
      } else {
        assert InPiece(r[0], x);
      }
    } else {
      assert (x - s) % MinutesPerDay == x - s + MinutesPerDay;
      if Wraps(b) {
        assert InPiece(r[1], x) <==> Occupies(b, x);
      }
    }
  }

  /** The sort key `a.startMin` of `normalizeBlocks`. */
  function StartMinKey(p: Piece): real {
    p.startMin as real
  }

  /** Cutting every block gives one piece per block plus one per block that crosses midnight. */
  lemma {:induction false} SplitAllLength(bs: seq<Block>)
    ensures |FlatMap(bs, SplitAcrossMidnight)| == |bs| + Count(bs, Wraps)
  {
    if |bs| > 0 {
      SplitAllLength(bs[1..]);
    }
  }

  /** The pieces of all blocks span as many minutes as the blocks' total duration. */
  lemma {:induction false} SplitAllMinutes(bs: seq<Block>)
    ensures SumOf(FlatMap(bs, SplitAcrossMidnight), PieceLength) == TotalDuration(bs)
  {
    if |bs| > 0 {
      var head := SplitAcrossMidnight(bs[0]);
      SplitAllMinutes(bs[1..]);
      SumAppend(head, FlatMap(bs[1..], SplitAcrossMidnight), PieceLength);
      if |head| == 2 {
        assert head[1..][1..] == [];
      }
    }
  }

  /** `normalizeBlocks`: every block cut at midnight, the pieces sorted by start minute with the
      language's stable sort. */
  function NormalizeBlocks(bs: seq<Block>): (r: seq<Piece>)
    ensures SortedBy(r, StartMinKey)
    ensures multiset(r) == multiset(FlatMap(bs, SplitAcrossMidnight))
    ensures |r| == |bs| + Count(bs, Wraps)
    ensures forall k :: KeyClass(r, StartMinKey, k) == KeyClass(FlatMap(bs, SplitAcrossMidnight), StartMinKey, k)
  {
    var pieces := FlatMap(bs, SplitAcrossMidnight);
    SplitAllLength(bs);
    forall k {
      SortIsStable(pieces, StartMinKey, k);
    }
    SortBy(pieces, StartMinKey)
  }

  /** Normalising keeps the schedule's total duration: the pieces span exactly the minutes
      `calculateTotalDuration` counts. */
  lemma NormalizedMinutes(bs: seq<Block>)
    ensures SumOf(NormalizeBlocks(bs), PieceLength) == TotalDuration(bs)
  {
    SplitAllMinutes(bs);
    SumPermutation(NormalizeBlocks(bs), FlatMap(bs, SplitAcrossMidnight), PieceLength);
  }

  /** The night 23:00-07:00 is drawn as minutes 1380-1440 and 0-420, and after normalising the
      morning piece comes first. */
  lemma NightSplit(b: Block)
    requires b.start == "23:00" && b.end == "07:00"
    ensures var r := SplitAcrossMidnight(b);
      && r[0].startMin == 1380 && r[0].endMin == 1440
      && r[1].startMin == 0 && r[1].endMin == 420
    ensures NormalizeBlocks([b]) == [SplitAcrossMidnight(b)[1], SplitAcrossMidnight(b)[0]]
  {
    var r := SplitAcrossMidnight(b);
    assert MinuteOf(b.start) == 1380 && MinuteOf(b.end) == 420;
    assert FlatMap([b], SplitAcrossMidnight) == r;
    var n := NormalizeBlocks([b]);
    assert n[0].startMin <= n[1].startMin;
    assert multiset(n) == multiset{r[0], r[1]};
    assert n[0] in multiset(n) && n[1] in multiset(n);
    if n[0] == r[0] {
      assert false;
    }
  }
}
