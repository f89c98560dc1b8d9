/** Arithmetic of the progressive renderer: how many rows a step renders, where
    the next step starts, the progress it reports, and the sequence of row
    ranges a complete render goes through. */
module Schedule {

  /** Rows [start, end) rendered by one step. */
  datatype Span = Span(start: nat, end: nat)

  function Min(a: int, b: int): int {
    if a < b then a else b
  }

  /** max(1, floor(height / 10)). */
  function ChunkSize(height: nat): (c: nat)
    ensures c >= 1
    ensures height >= 1 ==> c <= height
  {
    if height / 10 < 1 then 1 else height / 10
  }

  /** A chunk is one row on frames of fewer than 20 rows and a tenth of the
      frame, rounded down, from 10 rows on. */
  lemma ChunkSizeIsTenth(height: nat)
    ensures height < 20 ==> ChunkSize(height) == 1
    ensures height >= 10 ==> ChunkSize(height) * 10 <= height < (ChunkSize(height) + 1) * 10
  {
  }

  /** min(row + chunkSize, height): the row after the last one a step renders. */
  function NextRow(row: nat, chunkSize: nat, height: nat): (r: nat)
    requires chunkSize >= 1
    ensures row < height ==> row < r <= height
    ensures r - row <= chunkSize
    ensures r < height ==> r == row + chunkSize
  {
    Min(row + chunkSize, height)
  }

  /** Math.round(endRow / height * 100), computed exactly on integers. */
  function Progress(endRow: nat, height: nat): (p: nat)
    requires height >= 1
  {
    (200 * endRow + height) / (2 * height)
  }

  /** Progress is 100 * endRow / height rounded to the nearest integer, halves
      rounded up, and at most 100 while endRow <= height. */
  lemma ProgressRounds(endRow: nat, height: nat)
    requires height >= 1
    ensures var p := Progress(endRow, height);
      (2 * p - 1) * height <= 200 * endRow < (2 * p + 1) * height &&
      (endRow <= height ==> p <= 100)
  {
    var a, d := 200 * endRow + height, 2 * height;
    var p, r := a / d, a % d;
    assert a == d * p + r && 0 <= r < d;
    assert d * p == (2 * p) * height;
    assert (2 * p - 1) * height == (2 * p) * height - height;
    assert (2 * p + 1) * height == (2 * p) * height + height;
    if endRow <= height && p > 100 {
      MulMonotone(201, 2 * p - 1, height);
      assert false;
    }
  }

  lemma ProgressMonotone(e1: nat, e2: nat, height: nat)
    requires height >= 1 && e1 <= e2
    ensures Progress(e1, height) <= Progress(e2, height)
  {
    var p1, p2 := Progress(e1, height), Progress(e2, height);
    ProgressRounds(e1, height);
    ProgressRounds(e2, height);
    if p1 > p2 {
      MulMonotone(2 * p2 + 1, 2 * p1 - 1, height);
      assert false;
    }
  }

  /** Before any row is rendered the progress is 0. */
  lemma ProgressStart(height: nat)
    requires height >= 1
    ensures Progress(0, height) == 0
  {
    var p := Progress(0, height);
    ProgressRounds(0, height);
    if p > 0 {
      MulMonotone(1, 2 * p - 1, height);
      assert false;
    }
  }

  /** Moving the end row forward within the frame never lowers the progress
      and keeps it within 0..100. */
  lemma ProgressAdvances(e1: nat, e2: nat, height: nat)
    requires height >= 1 && e1 <= e2 <= height
    ensures Progress(e1, height) <= Progress(e2, height) <= 100
  {
    ProgressMonotone(e1, e2, height);
    ProgressRounds(e2, height);
  }

  lemma ProgressFull(height: nat)
    requires height >= 1
    ensures Progress(height, height) == 100
  {
    var p := Progress(height, height);
    ProgressRounds(height, height);
    if p < 100 {
      MulMonotone(2 * p + 1, 199, height);
      assert false;
    }
  }

  lemma MulMonotone(a: int, b: int, k: nat)
    requires a <= b
    ensures a * k <= b * k
  {
  }

  /** The row ranges of the steps that a render at `row` still has to do. */
  function Ranges(row: nat, chunkSize: nat, height: nat): seq<Span>
    requires chunkSize >= 1
    decreases height - row
  {
    if row >= height then []
    else
      var next := NextRow(row, chunkSize, height);
      [Span(row, next)] + Ranges(next, chunkSize, height)
  }

  /** Doing the first remaining range moves it from the ranges still to do to
      the ranges done. */
  lemma ScheduleAdvances(done: seq<Span>, row: nat, chunkSize: nat, height: nat)
    requires chunkSize >= 1 && row < height
    requires done + Ranges(row, chunkSize, height) == Ranges(0, chunkSize, height)
    ensures var next := NextRow(row, chunkSize, height);
      (done + [Span(row, next)]) + Ranges(next, chunkSize, height) == Ranges(0, chunkSize, height)
  {
    var next := NextRow(row, chunkSize, height);
    assert Ranges(row, chunkSize, height) == [Span(row, next)] + Ranges(next, chunkSize, height);
    assert (done + [Span(row, next)]) + Ranges(next, chunkSize, height)
        == done + ([Span(row, next)] + Ranges(next, chunkSize, height));
  }

  /** Every range is non-empty, at most a chunk long and within [row, height);
      the first starts at `row`, each one ends where the next starts, and the
      last ends at `height`. */
  lemma {:induction false} RangesShape(row: nat, chunkSize: nat, height: nat)
    requires chunkSize >= 1 && row <= height
    ensures var rs := Ranges(row, chunkSize, height);
      (rs == [] <==> row == height) &&
      (forall i :: 0 <= i < |rs| ==>
         row <= rs[i].start < rs[i].end <= height && rs[i].end - rs[i].start <= chunkSize) &&
      (rs != [] ==> rs[0].start == row && rs[|rs| - 1].end == height) &&
      (forall i :: 0 <= i < |rs| - 1 ==> rs[i].end == rs[i + 1].start)
    decreases height - row
  {
    if row < height {
      var next := NextRow(row, chunkSize, height);
      RangesShape(next, chunkSize, height);
    }
  }

  /** Ranges are ascending and pairwise disjoint. */
  lemma {:induction false} RangesAscending(row: nat, chunkSize: nat, height: nat)
    requires chunkSize >= 1 && row <= height
    ensures var rs := Ranges(row, chunkSize, height);
      forall i, j :: 0 <= i < j < |rs| ==> rs[i].end <= rs[j].start
    decreases height - row
  {
    if row < height {
      var next := NextRow(row, chunkSize, height);
      var rs, tail := Ranges(row, chunkSize, height), Ranges(next, chunkSize, height);
      RangesAscending(next, chunkSize, height);
      RangesShape(next, chunkSize, height);
      forall i, j | 0 <= i < j < |rs| ensures rs[i].end <= rs[j].start {
        if i == 0 {
          assert rs[j] == tail[j - 1];
        } else {
          assert rs[i] == tail[i - 1] && rs[j] == tail[j - 1];
        }
      }
    }
  }

  /** Every row in [row, height) lies in exactly one range, and no other row
      lies in any range. */
  lemma {:induction false} RangesPartition(row: nat, chunkSize: nat, height: nat, y: nat)
    requires chunkSize >= 1 && row <= height
    ensures var rs := Ranges(row, chunkSize, height);
      (row <= y < height <==> exists i :: 0 <= i < |rs| && rs[i].start <= y < rs[i].end) &&
      (forall i, j ::
         0 <= i < |rs| && 0 <= j < |rs| && rs[i].start <= y < rs[i].end && rs[j].start <= y < rs[j].end
         ==> i == j)
    decreases height - row
  {
    var rs := Ranges(row, chunkSize, height);
    RangesShape(row, chunkSize, height);
    RangesAscending(row, chunkSize, height);
    if row <= y < height {
      var next := NextRow(row, chunkSize, height);
      if y < next {
        assert rs[0].start <= y < rs[0].end;
      } else {
        RangesPartition(next, chunkSize, height, y);
        var tail := Ranges(next, chunkSize, height);
        var k :| 0 <= k < |tail| && tail[k].start <= y < tail[k].end;
        assert rs[k + 1] == tail[k];
      }
    }
  }

  /** A render from `row` takes ceil((height - row) / chunkSize) steps: n steps
      with (n - 1) * chunkSize < height - row <= n * chunkSize. */
  lemma {:induction false} RangesCount(row: nat, chunkSize: nat, height: nat)
    requires chunkSize >= 1 && row <= height
    ensures var n := |Ranges(row, chunkSize, height)|;
      (row == height ==> n == 0) &&
      (row < height ==> (n - 1) * chunkSize < height - row <= n * chunkSize)
    decreases height - row
  {
    if row < height {
      var next := NextRow(row, chunkSize, height);
      RangesCount(next, chunkSize, height);
      var m := |Ranges(next, chunkSize, height)|;
      assert |Ranges(row, chunkSize, height)| == m + 1;
      assert (m + 1) * chunkSize == m * chunkSize + chunkSize;
    }
  }

  /** Over the ranges of a complete render the reported progress never
      decreases, stays within 0..100 and is exactly 100 on the last step. */
  lemma ProgressAlongRanges(chunkSize: nat, height: nat)
    requires chunkSize >= 1 && height >= 1
    ensures var rs := Ranges(0, chunkSize, height);
      rs != [] &&
      (forall i :: 0 <= i < |rs| ==> Progress(rs[i].end, height) <= 100) &&
      (forall i, j :: 0 <= i <= j < |rs| ==> Progress(rs[i].end, height) <= Progress(rs[j].end, height)) &&
      Progress(rs[|rs| - 1].end, height) == 100
  {
    var rs := Ranges(0, chunkSize, height);
    RangesShape(0, chunkSize, height);
    RangesAscending(0, chunkSize, height);
    forall i, j | 0 <= i <= j < |rs|
      ensures Progress(rs[i].end, height) <= Progress(rs[j].end, height)
    {
      ProgressMonotone(rs[i].end, rs[j].end, height);
    }
    ProgressFull(height);
    forall i | 0 <= i < |rs| ensures Progress(rs[i].end, height) <= 100 {
      ProgressRounds(rs[i].end, height);
    }
  }
}
