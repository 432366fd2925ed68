/** The timing summary of intersection/statistics.cpp's main: over the
    measured durations it keeps the smallest (with -1 meaning "none yet"),
    the largest (starting from 0) and the sum. The clock is left out; the
    durations are the input. */
module Durations {

  /** min, max and x as the loop leaves them. */
  datatype Stats = Stats(min: int, max: int, sum: int)

  /** Before the first measurement. */
  const Start := Stats(-1, 0, 0)

  /** One turn of the loop: d replaces min when min is still -1 or larger
      than d, replaces max when larger, and is added to the sum. */
  function Record(s: Stats, d: int): Stats {
    Stats(if s.min == -1 || s.min > d then d else s.min,
          if d > s.max then d else s.max,
          s.sum + d)
  }

  /** The statistics after the given measurements, in order. */
  function Summary(ds: seq<int>): Stats {
    if ds == [] then Start else Record(Summary(ds[..|ds| - 1]), ds[|ds| - 1])
  }

  function Sum(ds: seq<int>): int {
    if ds == [] then 0 else Sum(ds[..|ds| - 1]) + ds[|ds| - 1]
  }

  /** The loop of main over the measured durations. */
  method Aggregate(ds: seq<int>) returns (min: int, max: int, x: int)
    ensures Stats(min, max, x) == Summary(ds)
  {
    min, max, x := -1, 0, 0;
    var i := 0;
    while i < |ds|
      invariant 0 <= i <= |ds|
      invariant Stats(min, max, x) == Summary(ds[..i])
    {
      var d := ds[i];
      assert ds[..i + 1][..i] == ds[..i];
      if min == -1 || min > d {
        min := d;
      }
      if d > max {
        max := d;
      }
      x := x + d;
      i := i + 1;
    }
    assert ds[..i] == ds;
  }

  /** With no negative duration, the sentinel works: min is the smallest
      duration (-1 when there is none), max the largest (0 when there is
      none) and x their sum. */
  lemma {:induction false} SummaryIsMinMaxSum(ds: seq<int>)
    requires forall k :: 0 <= k < |ds| ==> ds[k] >= 0
    ensures var s := Summary(ds);
            s.sum == Sum(ds) &&
            (ds == [] ==> s.min == -1 && s.max == 0) &&
            (ds != [] ==> s.min in ds && s.max in ds) &&
            (forall k :: 0 <= k < |ds| ==> s.min <= ds[k] <= s.max)
    decreases |ds|
  {
    if ds != [] {
      var n := |ds| - 1;
      var init := ds[..n];
      SummaryIsMinMaxSum(init);
      assert ds == init + [ds[n]];
      var s := Summary(init);
      if init != [] {
        assert s.min in init && s.max in init;
      }
    }
  }

  /** The sentinel needs the durations to be non-negative: a duration of
      -1 makes the next one the minimum, however large. */
  lemma SentinelNeedsNonNegative()
    ensures Summary([5, -1, 7]).min == 7
  {
    assert [5, -1, 7][..2] == [5, -1];
    assert [5, -1][..1] == [5];
    assert [5][..0] == [];
  }
}
