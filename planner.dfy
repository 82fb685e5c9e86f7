/** The chunk window planner shared by upload and download: each step moves
    `start` to the previous `end` and pushes `end` one chunk further, clipped
    to the file size. */
module ChunkPlanner {
  import opened Arith

  /** The chunk size both transfer loops use: 1024 * 1024 * 2 bytes. */
  const ChunkSize: nat := 2097152

  /** A byte range [start, end) of the file. */
  datatype Window = Window(start: nat, end: nat)

  /** One planner step, from the previous window's end. */
  function NextWindow(end: nat, size: nat, chunk: nat): (w: Window)
    ensures w.start == end
    ensures w.end <= end + chunk
    ensures end + chunk <= size ==> w.end == end + chunk
    ensures end + chunk > size ==> w.end == size
  {
    Window(end, if end + chunk > size then size else end + chunk)
  }

  /** The windows a transfer asks for, starting at `from`, while the counter
      (kept equal to the window end by a transfer that succeeds) is below
      `size`. */
  function Plan(from: nat, size: nat, chunk: nat): (ws: seq<Window>)
    requires chunk > 0
    ensures forall j :: 0 <= j < |ws| ==> from <= ws[j].start < ws[j].end <= size
    decreases size - from
  {
    if from >= size then []
    else
      var w := NextWindow(from, size, chunk);
      [w] + Plan(w.end, size, chunk)
  }

  /** The windows are non-empty, at most one chunk long, contiguous, full-sized
      except possibly the last, start at `from` and end at `size`. */
  lemma PlanShape(from: nat, size: nat, chunk: nat)
    requires chunk > 0
    ensures var ws := Plan(from, size, chunk);
      && (ws == [] <==> from >= size)
      && (forall j :: 0 <= j < |ws| ==>
            from <= ws[j].start < ws[j].end <= size && ws[j].end - ws[j].start <= chunk)
      && (forall j :: 0 <= j < |ws| - 1 ==>
            ws[j].end == ws[j + 1].start && ws[j].end - ws[j].start == chunk)
      && (ws != [] ==> ws[0].start == from && ws[|ws| - 1].end == size)
  {
    PlanEnds(from, size, chunk);
    PlanSteps(from, size, chunk);
  }

  /** The plan is empty exactly when nothing is left; otherwise it starts at
      `from` and ends at `size`. */
  lemma {:induction false} PlanEnds(from: nat, size: nat, chunk: nat)
    requires chunk > 0
    ensures var ws := Plan(from, size, chunk);
      && (ws == [] <==> from >= size)
      && (ws != [] ==> ws[0].start == from && ws[|ws| - 1].end == size)
    decreases size - from
  {
    if from < size {
      var w := NextWindow(from, size, chunk);
      PlanEnds(w.end, size, chunk);
      var rest := Plan(w.end, size, chunk);
      var ws := Plan(from, size, chunk);
      assert ws == [w] + rest;
      if rest != [] {
        assert ws[|ws| - 1] == rest[|rest| - 1];
      }
    }
  }

  /** Each window is at most one chunk long, and each but the last is exactly
      one chunk long and ends where the next one starts. */
  lemma {:induction false} PlanSteps(from: nat, size: nat, chunk: nat)
    requires chunk > 0
    ensures var ws := Plan(from, size, chunk);
      && (forall j :: 0 <= j < |ws| ==> ws[j].end - ws[j].start <= chunk)
      && (forall j :: 0 <= j < |ws| - 1 ==>
            ws[j].end == ws[j + 1].start && ws[j].end - ws[j].start == chunk)
    decreases size - from
  {
    if from < size {
      var w := NextWindow(from, size, chunk);
      PlanSteps(w.end, size, chunk);
      PlanEnds(w.end, size, chunk);
      var rest := Plan(w.end, size, chunk);
      var ws := Plan(from, size, chunk);
      assert ws == [w] + rest;
      assert rest != [] ==> from + chunk < size;
      forall j | 0 <= j < |ws| ensures ws[j].end - ws[j].start <= chunk {
        if j > 0 { assert ws[j] == rest[j - 1]; }
      }
      forall j | 0 <= j < |ws| - 1
        ensures ws[j].end == ws[j + 1].start && ws[j].end - ws[j].start == chunk
      {
        if j > 0 { assert ws[j] == rest[j - 1] && ws[j + 1] == rest[j]; }
      }
    }
  }

  /** Windows come in strictly increasing order and never overlap. */
  lemma PlanDisjoint(from: nat, size: nat, chunk: nat, i: nat, j: nat)
    requires chunk > 0
    requires i < j < |Plan(from, size, chunk)|
    ensures Plan(from, size, chunk)[i].end <= Plan(from, size, chunk)[j].start
    decreases j - i
  {
    var ws := Plan(from, size, chunk);
    PlanShape(from, size, chunk);
    if i + 1 < j {
      PlanDisjoint(from, size, chunk, i + 1, j);
    }
  }

  /** Every offset of [from, size) lies in some window. */
  lemma {:induction false} PlanCovers(from: nat, size: nat, chunk: nat, x: nat)
    requires chunk > 0
    requires from <= x < size
    ensures exists j :: (0 <= j < |Plan(from, size, chunk)| &&
      Plan(from, size, chunk)[j].start <= x < Plan(from, size, chunk)[j].end)
    decreases size - from
  {
    var w := NextWindow(from, size, chunk);
    var ws := Plan(from, size, chunk);
    assert ws[0] == w;
    if x >= w.end {
      PlanCovers(w.end, size, chunk, x);
      var k :| 0 <= k < |Plan(w.end, size, chunk)| &&
        Plan(w.end, size, chunk)[k].start <= x < Plan(w.end, size, chunk)[k].end;
      assert ws[k + 1] == Plan(w.end, size, chunk)[k];
    }
  }

  /** The number of windows is the size divided by the chunk size, rounded up. */
  lemma {:induction false} PlanCount(from: nat, size: nat, chunk: nat)
    requires chunk > 0 && from <= size
    ensures |Plan(from, size, chunk)| == (size - from + chunk - 1) / chunk
    decreases size - from
  {
    var n := size - from;
    if n == 0 {
    } else if from + chunk >= size {
      DivIsOne(n + chunk - 1, chunk);
    } else {
      PlanCount(from + chunk, size, chunk);
      DivStep(n - chunk + chunk - 1, chunk);
    }
  }

  /** The pieces of `d` the windows select, joined in order. */
  function Pieces<T>(d: seq<T>, ws: seq<Window>): seq<T>
    requires forall j :: 0 <= j < |ws| ==> ws[j].start <= ws[j].end <= |d|
  {
    if ws == [] then [] else d[ws[0].start..ws[0].end] + Pieces(d, ws[1..])
  }

  /** The windows planned over a buffer split it exactly: joined back in order
      they give the buffer from `from` on. */
  lemma {:induction false} PlanSplits<T>(d: seq<T>, from: nat, chunk: nat)
    requires chunk > 0 && from <= |d|
    ensures var ws := Plan(from, |d|, chunk);
      (forall j :: 0 <= j < |ws| ==> ws[j].start <= ws[j].end <= |d|) &&
      Pieces(d, ws) == d[from..]
    decreases |d| - from
  {
    if from < |d| {
      var w := NextWindow(from, |d|, chunk);
      PlanSplits(d, w.end, chunk);
      var ws := Plan(from, |d|, chunk);
      assert ws == [w] + Plan(w.end, |d|, chunk);
      assert ws[1..] == Plan(w.end, |d|, chunk);
      assert d[from..] == d[from..w.end] + d[w.end..];
    }
  }

  /** A 5 MiB file in 2 MiB chunks takes three windows, the last one clipped. */
  lemma FiveMebibytes()
    ensures Plan(0, 5242880, ChunkSize) ==
      [Window(0, 2097152), Window(2097152, 4194304), Window(4194304, 5242880)]
  {
  }
}
