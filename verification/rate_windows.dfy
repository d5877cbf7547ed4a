/** Counting windows that start at the first admission after the last window
    ended: how many admissions any interval of one window length can hold. */
module RateWindows {

  /** Entries of `ts` in the half-open interval from `a` to `b`. */
  function Within(ts: seq<int>, a: int, b: int): nat {
    if ts == [] then 0
    else Within(ts[..|ts| - 1], a, b) + (if a <= ts[|ts| - 1] < b then 1 else 0)
  }

  ghost predicate Sorted(ts: seq<int>) {
    forall i, j | 0 <= i <= j < |ts| :: ts[i] <= ts[j]
  }

  datatype Segment = Segment(start: int, count: nat)

  /** The window that the last admission fell into. */
  function LastSegment(ts: seq<int>, width: int): Segment {
    if ts == [] then Segment(0, 0)
    else
      var before := LastSegment(ts[..|ts| - 1], width);
      var t := ts[|ts| - 1];
      if before.count > 0 && t < before.start + width then Segment(before.start, before.count + 1) else Segment(t, 1)
  }

  /** No window ever held more than `limit` admissions. */
  ghost predicate Limited(ts: seq<int>, width: int, limit: int) {
    forall n | 0 <= n <= |ts| :: LastSegment(ts[..n], width).count <= limit
  }

  lemma LimitedPrefix(ts: seq<int>, width: int, limit: int)
    requires Limited(ts, width, limit) && ts != []
    ensures Limited(ts[..|ts| - 1], width, limit)
    ensures LastSegment(ts, width).count <= limit
  {
    var init := ts[..|ts| - 1];
    assert ts[..|ts|] == ts;
    assert forall n | 0 <= n <= |init| :: init[..n] == ts[..n];
  }

  lemma LimitedExtends(ts: seq<int>, t: int, width: int, limit: int)
    requires Limited(ts, width, limit) && LastSegment(ts + [t], width).count <= limit
    ensures Limited(ts + [t], width, limit)
  {
    forall n | 0 <= n <= |ts + [t]|
      ensures LastSegment((ts + [t])[..n], width).count <= limit
    {
      if n <= |ts| {
        assert (ts + [t])[..n] == ts[..n];
      } else {
        assert (ts + [t])[..n] == ts + [t];
      }
    }
  }

  lemma {:induction false} WithinMonotone(ts: seq<int>, a: int, b: int, a': int, b': int)
    requires a <= a' && b' <= b
    ensures Within(ts, a', b') <= Within(ts, a, b)
  {
    if ts != [] {
      WithinMonotone(ts[..|ts| - 1], a, b, a', b');
    }
  }

  lemma {:induction false} WithinSplits(ts: seq<int>, a: int, m: int, b: int)
    requires a <= m
    ensures Within(ts, a, b) <= Within(ts, a, m) + Within(ts, m, b)
  {
    if ts != [] {
      WithinSplits(ts[..|ts| - 1], a, m, b);
    }
  }

  lemma {:induction false} NoneAfter(ts: seq<int>, a: int, b: int)
    requires Sorted(ts) && (ts != [] ==> ts[|ts| - 1] < a)
    ensures Within(ts, a, b) == 0
  {
    if ts != [] {
      NoneAfter(ts[..|ts| - 1], a, b);
    }
  }

  /** Where the last window stands among all the admissions: it holds `count` of
      them, the first at its very start, and fewer than `limit` fell into the
      window length before it. */
  lemma {:induction false} LastSegmentHolds(ts: seq<int>, width: int, limit: int, a: int, b: int)
    requires Sorted(ts) && Limited(ts, width, limit) && width > 0 && limit > 0 && ts != []
    ensures var s := LastSegment(ts, width);
            && s.count > 0 && s.start <= ts[|ts| - 1] < s.start + width
            && (a >= s.start ==> Within(ts, a, b) <= s.count)
            && (a > s.start ==> Within(ts, a, b) <= s.count - 1)
            && (a > s.start - width && b <= s.start ==> Within(ts, a, b) <= limit - 1)
  {
    var init := ts[..|ts| - 1];
    var t := ts[|ts| - 1];
    LimitedPrefix(ts, width, limit);
    if init == [] {
      assert Within(init, a, b) == 0;
    } else {
      LastSegmentHolds(init, width, limit, a, b);
      if a > init[|init| - 1] {
        NoneAfter(init, a, b);
      }
    }
  }

  /** Any interval of one window length holds fewer than twice the limit. */
  lemma {:induction false} FewerThanTwice(ts: seq<int>, width: int, limit: int, a: int)
    requires Sorted(ts) && Limited(ts, width, limit) && width > 0 && limit > 0
    ensures Within(ts, a, a + width) <= 2 * limit - 1
  {
    if ts != [] {
      var init := ts[..|ts| - 1];
      LimitedPrefix(ts, width, limit);
      FewerThanTwice(init, width, limit, a);
      var s := LastSegment(ts, width);
      LastSegmentHolds(ts, width, limit, s.start, a + width);
      if a <= ts[|ts| - 1] < a + width {
        if a >= s.start {
          LastSegmentHolds(ts, width, limit, a, a + width);
        } else {
          LastSegmentHolds(ts, width, limit, a, s.start);
          WithinSplits(ts, a, s.start, a + width);
        }
      }
    }
  }

  // ---- the bound is attained ----------------------------------------------

  function Repeat(t: int, n: nat): (ts: seq<int>)
    ensures |ts| == n && forall i | 0 <= i < n :: ts[i] == t
  {
    if n == 0 then [] else Repeat(t, n - 1) + [t]
  }

  /** One admission at time 0, the rest of the limit just before the window ends,
      and a full limit as soon as it has ended. */
  function Burst(width: int, early: nat, late: nat): seq<int> {
    [0] + Repeat(width - 1, early) + Repeat(width, late)
  }

  lemma {:induction false} BurstSegments(width: int, early: nat, late: nat)
    requires width > 1
    ensures LastSegment(Burst(width, early, late), width)
            == (if late == 0 then Segment(0, 1 + early) else Segment(width, late))
    ensures Within(Burst(width, early, late), 1, 1 + width) == early + late
    decreases early + late
  {
    var ts := Burst(width, early, late);
    if late > 0 {
      BurstSegments(width, early, late - 1);
      assert ts[..|ts| - 1] == Burst(width, early, late - 1);
    } else if early > 0 {
      BurstSegments(width, early - 1, 0);
      assert ts[..|ts| - 1] == Burst(width, early - 1, 0);
    } else {
      assert ts == [0] && ts[..0] == [];
      assert LastSegment([], width).count == 0;
    }
  }

  lemma BurstPrefix(width: int, limit: nat, n: nat)
    requires width > 1 && limit > 0 && n <= 2 * limit
    ensures LastSegment(Burst(width, limit - 1, limit)[..n], width).count <= limit
  {
    hide LastSegment;
    var ts := Burst(width, limit - 1, limit);
    if n == 0 {
      EmptySegment(width);
      assert ts[..n] == [];
    } else if n <= limit {
      assert ts[..n] == Burst(width, n - 1, 0);
      BurstSegments(width, n - 1, 0);
    } else {
      assert ts[..n] == Burst(width, limit - 1, n - limit);
      BurstSegments(width, limit - 1, n - limit);
    }
  }

  lemma EmptySegment(width: int)
    ensures LastSegment([], width).count == 0
  {
  }

  /** The bound 2 * limit - 1 cannot be improved. */
  lemma BoundIsAttained(width: int, limit: nat)
    requires width > 1 && limit > 0
    ensures var ts := Burst(width, limit - 1, limit);
            && Sorted(ts) && Limited(ts, width, limit) && Within(ts, 1, 1 + width) == 2 * limit - 1
  {
    hide LastSegment, Within;
    var ts := Burst(width, limit - 1, limit);
    BurstSegments(width, limit - 1, limit);
    forall n | 0 <= n <= |ts|
      ensures LastSegment(ts[..n], width).count <= limit
    {
      BurstPrefix(width, limit, n);
    }
  }
}
