/** The window arithmetic shared by both `split_audio` variants: a total
    duration, a window length and an overlap (all integer milliseconds) give
    indexed `(start_time, end_time)` windows. */
module Windower {

  /** One window of the recording: `start_time`, `end_time` and `index`. */
  datatype Window = Window(startTime: int, endTime: int, index: nat)

  /** Why a split fails: `// 0` raises ZeroDivisionError in both variants;
      the ffmpeg variant also raises ImportError when ffmpeg is missing. Both
      are logged and re-raised to the caller. */
  datatype SplitError = ZeroDivision | FfmpegMissing

  function Min(a: int, b: int): int { if a <= b then a else b }
  function Max(a: int, b: int): int { if a >= b then a else b }

  /** Python's `a // b`, which rounds toward negative infinity for either
      sign of `b` (Dafny's `/` is Euclidean, which agrees only for `b > 0`). */
  function FloorDiv(a: int, b: int): (q: int)
    requires b != 0
    ensures b > 0 ==> q * b <= a < q * b + b
    ensures b < 0 ==> q * b + b < a <= q * b
  {
    if b > 0 then a / b else (-a) / (-b)
  }

  /** `effective_segment = segment_duration - overlap_duration`. */
  function Step(segment: int, overlap: int): int {
    segment - overlap
  }

  /** `max(1, (total + eff - 1) // eff)`: the number of windows. */
  function WindowCount(total: nat, segment: int, overlap: int): int
    requires Step(segment, overlap) != 0
  {
    var eff := Step(segment, overlap);
    Max(1, FloorDiv(total + eff - 1, eff))
  }

  /** Window `i`: the end is taken from the nominal start `i * eff`, and only
      afterwards is a non-initial start pulled back by the overlap. */
  function WindowAt(i: nat, total: nat, segment: int, overlap: int): Window {
    var nominal := i * Step(segment, overlap);
    var end := Min(nominal + segment, total);
    var start := if i > 0 then Max(0, nominal - overlap) else nominal;
    Window(start, end, i)
  }

  /** The closed-form window list both `split_audio` loops produce. */
  function Windows(total: nat, segment: int, overlap: int): seq<Window>
    requires Step(segment, overlap) != 0
  {
    seq(WindowCount(total, segment, overlap), i requires 0 <= i => WindowAt(i, total, segment, overlap))
  }

  /** The configuration every lemma below assumes: a positive step and a
      non-negative overlap. */
  predicate Sensible(segment: int, overlap: int) {
    Step(segment, overlap) > 0 && overlap >= 0
  }

  /** The count is the ceiling of `total / eff`, but at least one: the least
      positive `n` whose `n` steps reach `total`. */
  lemma {:induction false} CountIsCeiling(total: nat, segment: int, overlap: int)
    requires Step(segment, overlap) > 0
    ensures var n := WindowCount(total, segment, overlap); var eff := Step(segment, overlap);
      n >= 1 && n * eff >= total && (n == 1 || (n - 1) * eff < total)
  {
    var eff := Step(segment, overlap);
    var q := FloorDiv(total + eff - 1, eff);
    assert q * eff <= total + eff - 1 < q * eff + eff;
    if q < 1 {
      assert q * eff < total + 0 || total == 0;
      assert total <= 1 * eff by {
        assert q <= 0;
        assert q * eff <= 0;
      }
    } else {
      assert (q - 1) * eff == q * eff - eff;
    }
  }

  /** A window that starts inside the recording: every index below the count
      has its nominal start before `total`, or is window 0. */
  lemma {:induction false} NominalStartInside(i: nat, total: nat, segment: int, overlap: int)
    requires Step(segment, overlap) > 0
    requires i < WindowCount(total, segment, overlap)
    ensures i * Step(segment, overlap) < total || i == 0
  {
    CountIsCeiling(total, segment, overlap);
    var eff := Step(segment, overlap);
    var n := WindowCount(total, segment, overlap);
    if i > 0 {
      MulMonotone(n - 1, i, eff);
    }
  }

  /** Every window is well formed, and a non-initial window can be as long as
      `segment + overlap` because its end is computed before the pull-back. */
  lemma {:induction false} WindowBounds(i: nat, total: nat, segment: int, overlap: int)
    requires Sensible(segment, overlap)
    requires i < WindowCount(total, segment, overlap)
    ensures var w := WindowAt(i, total, segment, overlap);
      0 <= w.startTime <= w.endTime <= total
      && w.endTime - w.startTime <= (if i == 0 then segment else segment + overlap)
  {
    NominalStartInside(i, total, segment, overlap);
  }

  /** Window 0 starts at 0 and the last window ends exactly at `total`. */
  lemma {:induction false} EndsAtTotal(total: nat, segment: int, overlap: int)
    requires Sensible(segment, overlap)
    ensures var ws := Windows(total, segment, overlap);
      |ws| >= 1 && ws[0].startTime == 0 && ws[|ws| - 1].endTime == total
  {
    CountIsCeiling(total, segment, overlap);
    var n := WindowCount(total, segment, overlap);
    var eff := Step(segment, overlap);
    assert (n - 1) * eff + segment == n * eff + overlap;
  }

  /** Consecutive windows touch or overlap: the next start is never after the
      current end. */
  lemma {:induction false} Chained(i: nat, total: nat, segment: int, overlap: int)
    requires Sensible(segment, overlap)
    requires i + 1 < WindowCount(total, segment, overlap)
    ensures WindowAt(i + 1, total, segment, overlap).startTime <= WindowAt(i, total, segment, overlap).endTime
  {
    NominalStartInside(i + 1, total, segment, overlap);
    var eff := Step(segment, overlap);
    var a := i * eff;
    assert 0 <= a;
    assert (i + 1) * eff == a + eff;
    var next := WindowAt(i + 1, total, segment, overlap);
    var cur := WindowAt(i, total, segment, overlap);
    assert cur.endTime == Min(a + segment, total);
    assert next.startTime == Max(0, a + eff - overlap);
  }

  /** Because the end comes from the nominal start and only the start is
      pulled back, two neighbouring windows share twice the overlap, unless
      the earlier one is cut short by the end of the recording or the later
      one's start is clamped at 0. */
  lemma {:induction false} SharedSpan(i: nat, total: nat, segment: int, overlap: int)
    requires Sensible(segment, overlap)
    requires i * Step(segment, overlap) + segment <= total
    requires (i + 1) * Step(segment, overlap) >= overlap
    ensures WindowAt(i, total, segment, overlap).endTime - WindowAt(i + 1, total, segment, overlap).startTime == 2 * overlap
  {
    var eff := Step(segment, overlap);
    assert (i + 1) * eff == i * eff + eff;
  }

  /** The windows cover the whole recording: every millisecond `t` in
      `[0, total)` lies in some window's `[start, end)`. */
  lemma {:induction false} Covers(total: nat, segment: int, overlap: int, t: int)
    requires Sensible(segment, overlap)
    requires 0 <= t < total
    ensures exists i :: (0 <= i < WindowCount(total, segment, overlap)
      && WindowAt(i, total, segment, overlap).startTime <= t < WindowAt(i, total, segment, overlap).endTime)
  {
    var eff := Step(segment, overlap);
    var n := WindowCount(total, segment, overlap);
    CountIsCeiling(total, segment, overlap);
    var i := t / eff;
    DivBounds(t, eff);
    if i >= n {
      MulMonotone(i, n, eff);
      assert false;
    }
    WindowHolds(i, total, segment, overlap, t);
  }

  /** The window whose nominal step contains `t` holds `t`. */
  lemma {:induction false} WindowHolds(i: nat, total: nat, segment: int, overlap: int, t: int)
    requires Sensible(segment, overlap)
    requires i * Step(segment, overlap) <= t < i * Step(segment, overlap) + Step(segment, overlap)
    requires t < total
    ensures WindowAt(i, total, segment, overlap).startTime <= t < WindowAt(i, total, segment, overlap).endTime
  {
    var a := i * Step(segment, overlap);
    assert WindowAt(i, total, segment, overlap).endTime == Min(a + segment, total);
  }

  lemma {:induction false} DivBounds(t: int, d: int)
    requires t >= 0 && d > 0
    ensures (t / d) * d <= t < (t / d) * d + d
  {
  }

  lemma {:induction false} MulMonotone(a: int, b: int, c: int)
    requires a >= b && c >= 0
    ensures a * c >= b * c
  {
    assert a * c - b * c == (a - b) * c;
  }
}
