/** The date-range windowing of `get_news_in_batches` (scrapingReforma.py):
    `[start, end)` is cut into consecutive windows of at most thirty days,
    each starting where the previous one ended, the last one clamped to
    `end`. Dates are day numbers; the script's `datetime` values are all
    midnights, so `timedelta(days=30)` is `+ 30`. The sum is computed before
    `min` clamps it, so it raises `OverflowError` once it passes the last
    representable day, even when `end` is earlier. */
module Windowing {
  import opened Wrappers

  const BatchDays := 30

  /** One `(start, batch_end)` pair of `date_ranges`. */
  datatype Window = Window(start: int, end: int)

  function Min(a: int, b: int): int {
    if a <= b then a else b
  }

  /** The windows form a contiguous cover of `[start, end)` by non-empty
      windows of at most `BatchDays` days, each inside the range. */
  ghost predicate Partition(ws: seq<Window>, start: int, end: int) {
    (start >= end ==> ws == []) &&
    (start < end ==> |ws| > 0 && ws[0].start == start && ws[|ws| - 1].end == end) &&
    (forall i :: 0 <= i < |ws| ==>
       start <= ws[i].start < ws[i].end <= end && ws[i].end - ws[i].start <= BatchDays) &&
    (forall i, j :: 0 <= i && j == i + 1 && j < |ws| ==> ws[j].start == ws[i].end)
  }

  /** Every window but the last is a full `BatchDays` long. */
  ghost predicate Greedy(ws: seq<Window>) {
    forall i :: 0 <= i < |ws| - 1 ==> ws[i].end - ws[i].start == BatchDays
  }

  /** The windows the loop produces, as a recursive definition. */
  function Windows(start: int, end: int): (r: seq<Window>)
    ensures start >= end <==> r == []
    ensures start < end ==> r[0].start == start && r[|r| - 1].end == end
    decreases end - start
  {
    if start >= end then []
    else
      var batchEnd := Min(start + BatchDays, end);
      [Window(start, batchEnd)] + Windows(batchEnd, end)
  }

  /** The recursive definition yields a partition of the range. */
  lemma {:induction false} WindowsPartition(start: int, end: int)
    ensures Partition(Windows(start, end), start, end)
    decreases end - start
  {
    if start < end {
      var batchEnd := Min(start + BatchDays, end);
      var ws := Windows(start, end);
      var rest := Windows(batchEnd, end);
      WindowsPartition(batchEnd, end);
      assert ws == [Window(start, batchEnd)] + rest;
      assert forall i :: 0 < i < |ws| ==> ws[i] == rest[i - 1];
      assert rest != [] ==> ws[1].start == batchEnd;
    }
  }

  /** Every window of the recursive definition but the last is full. */
  lemma {:induction false} WindowsGreedy(start: int, end: int)
    ensures Greedy(Windows(start, end))
    decreases end - start
  {
    if start < end {
      var batchEnd := Min(start + BatchDays, end);
      var ws := Windows(start, end);
      var rest := Windows(batchEnd, end);
      WindowsGreedy(batchEnd, end);
      assert ws == [Window(start, batchEnd)] + rest;
      assert forall i :: 0 < i < |ws| ==> ws[i] == rest[i - 1];
    }
  }

  /** Some window starts within `BatchDays` of `maxDay`, the last day a
      date can hold, so `start + timedelta(days=30)` overflows there. */
  ghost predicate Overflows(start: int, end: int, maxDay: int) {
    exists i :: 0 <= i < |Windows(start, end)| && Windows(start, end)[i].start + BatchDays > maxDay
  }

  /** The `while start < end` loop of `get_news_in_batches`, building `date_ranges`;
      `None` is the `OverflowError` of the first window start whose sum
      passes `maxDay`. */
  method DateRanges(start: int, end: int, maxDay: int) returns (r: Option<seq<Window>>)
    ensures r.None? <==> Overflows(start, end, maxDay)
    ensures r.Some? ==> r.value == Windows(start, end)
    ensures r.Some? ==> Partition(r.value, start, end) && Greedy(r.value)
    ensures r.Some? ==> |r.value| == if start < end then (end - start + BatchDays - 1) / BatchDays else 0
  {
    var ranges := [];
    var s := start;
    while s < end
      invariant ranges + Windows(s, end) == Windows(start, end)
      invariant forall i :: 0 <= i < |ranges| ==> ranges[i].start + BatchDays <= maxDay
      decreases end - s
    {
      var batchEnd := Min(s + BatchDays, end);
      assert Windows(s, end) == [Window(s, batchEnd)] + Windows(batchEnd, end);
      if s + BatchDays > maxDay {
        assert Windows(start, end)[|ranges|] == Window(s, batchEnd);
        return None;
      }
      ranges := ranges + [Window(s, batchEnd)];
      s := batchEnd;
    }
    assert ranges == Windows(start, end);
    WindowsPartition(start, end);
    WindowsGreedy(start, end);
    WindowCount(start, end);
    r := Some(ranges);
  }

  /** Window starts ascend, so the loop overflows exactly when its last
      window starts within `BatchDays` of `maxDay`. */
  lemma OverflowsAtLast(start: int, end: int, maxDay: int)
    ensures Overflows(start, end, maxDay) <==>
            start < end && Windows(start, end)[|Windows(start, end)| - 1].start + BatchDays > maxDay
  {
    var ws := Windows(start, end);
    if start < end {
      WindowsPartition(start, end);
      LastStartIsLatest(ws, start, end);
      assert ws[|ws| - 1].start + BatchDays > maxDay ==> Overflows(start, end, maxDay);
    }
  }

  /** In a partition, no window starts after the last one. */
  lemma {:induction false} LastStartIsLatest(ws: seq<Window>, start: int, end: int)
    requires Partition(ws, start, end) && |ws| > 0
    ensures forall i :: 0 <= i < |ws| ==> ws[i].start <= ws[|ws| - 1].start
  {
    forall i | 0 <= i < |ws|
      ensures ws[i].start <= ws[|ws| - 1].start
    {
      StartsAscend(ws, start, end, i);
    }
  }

  /** Fifty-six days ending on the last representable day: the second
      window starts 26 days before it, so `+ 30` overflows. */
  lemma NearMaxOverflows(d: int)
    ensures Overflows(d, d + 56, d + 56)
  {
    assert Windows(d + 30, d + 56) == [Window(d + 30, d + 56)];
    assert Windows(d, d + 56) == [Window(d, d + 30)] + Windows(d + 30, d + 56);
    assert Windows(d, d + 56)[1].start + BatchDays > d + 56;
  }

  /** The number of windows is the range length divided by thirty, rounded up. */
  lemma {:induction false} WindowCount(start: int, end: int)
    ensures start >= end ==> |Windows(start, end)| == 0
    ensures start < end ==> |Windows(start, end)| == (end - start + BatchDays - 1) / BatchDays
    decreases end - start
  {
    if start < end && end - start > BatchDays {
      WindowCount(start + BatchDays, end);
    }
  }

  /** Partition and greediness pin the windows down: any sequence with both
      properties is exactly what the loop produces. */
  lemma {:induction false} WindowsUnique(ws: seq<Window>, start: int, end: int)
    requires Partition(ws, start, end) && Greedy(ws)
    ensures ws == Windows(start, end)
    decreases |ws|
  {
    if start < end {
      var w := ws[0];
      if |ws| == 1 {
        assert Windows(start, end) == [Window(start, end)];
      } else {
        assert w.end == start + BatchDays;
        PartitionTail(ws, start, end);
        WindowsUnique(ws[1..], w.end, end);
        assert ws == [w] + ws[1..];
      }
    }
  }

  /** Dropping the first window of a greedy partition leaves a greedy
      partition of the rest of the range. */
  lemma PartitionTail(ws: seq<Window>, start: int, end: int)
    requires Partition(ws, start, end) && Greedy(ws) && |ws| > 1
    ensures Partition(ws[1..], ws[0].end, end) && Greedy(ws[1..])
  {
    var rest := ws[1..];
    assert ws[1].start == ws[0].end;
    StartsAscend(ws, start, end, 1);
    forall i, j | 0 <= i && j == i + 1 && j < |rest| ensures rest[j].start == rest[i].end {
      assert rest[i] == ws[i + 1] && rest[j] == ws[j + 1];
    }
    forall i | 0 <= i < |rest| - 1 ensures rest[i].end - rest[i].start == BatchDays {
      assert rest[i] == ws[i + 1];
    }
  }

  /** In a partition, windows after the `k`-th start no earlier than it. */
  lemma {:induction false} StartsAscend(ws: seq<Window>, start: int, end: int, k: nat)
    requires Partition(ws, start, end) && k < |ws|
    ensures forall i :: k <= i < |ws| ==> ws[k].start <= ws[i].start
    decreases |ws| - k
  {
    if k + 1 < |ws| {
      StartsAscend(ws, start, end, k + 1);
      assert ws[k + 1].start == ws[k].end;
    }
  }

  /** A range no longer than thirty days is fetched in one window equal to it. */
  lemma ShortRange(start: int, end: int)
    requires start < end <= start + BatchDays
    ensures Windows(start, end) == [Window(start, end)]
  {
  }

  /** A 65-day range gives three windows: two full ones and a 5-day tail. */
  lemma SixtyFiveDays(start: int)
    ensures Windows(start, start + 65) ==
            [Window(start, start + 30), Window(start + 30, start + 60), Window(start + 60, start + 65)]
  {
    assert Windows(start + 60, start + 65) == [Window(start + 60, start + 65)];
    assert Windows(start + 30, start + 65) == [Window(start + 30, start + 60)] + Windows(start + 60, start + 65);
  }
}
