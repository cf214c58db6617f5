/**
  The progress callbacks of pushes. Percentages are computed in double precision, with every
  operation rounded to a nearest double; the results hold for any way of breaking ties.
*/
module Progress {
  const TEN_MIB := 10485760
  const TWO_TO_46: int := 0x4000_0000_0000
  const TWO_TO_53: int := 0x20_0000_0000_0000

  // ---------------------------------------------------------------- rounding

  function Pow2(e: nat): (p: nat)
    ensures p > 0
  {
    if e == 0 then 1 else 2 * Pow2(e - 1)
  }

  predicate Significand(y: real, m: int, e: nat) {
    -TWO_TO_53 <= m <= TWO_TO_53 && e <= 1074 && y * Pow2(e) as real == m as real
  }

  /** The doubles of magnitude up to 2^53, and so all from 0 to 100. */
  ghost predicate IsDouble(y: real) {
    exists m: int, e: nat :: Significand(y, m, e)
  }

  function Distance(x: real, y: real): real {
    if x <= y then y - x else x - y
  }

  /** Rounding to a nearest double, from 0 to 100. */
  ghost predicate Rounds(rounded: real -> real) {
    forall x: real :: 0.0 <= x <= 100.0 ==>
      IsDouble(rounded(x)) && forall y: real :: IsDouble(y) ==> Distance(rounded(x), x) <= Distance(y, x)
  }

  // Such a rounding exists: the best multiple for each exponent, and the best of these.

  function NearestInt(z: real): (m: int)
    ensures -TWO_TO_53 <= m <= TWO_TO_53
  {
    var m := (z + 0.5).Floor;
    if m < -TWO_TO_53 then -TWO_TO_53 else if m > TWO_TO_53 then TWO_TO_53 else m
  }

  lemma NearestIntIsBest(z: real, k: int)
    requires -TWO_TO_53 <= k <= TWO_TO_53
    ensures Distance(NearestInt(z) as real, z) <= Distance(k as real, z)
  {
    var f := (z + 0.5).Floor;
    assert f as real <= z + 0.5 < f as real + 1.0;
    if f < k {
      assert f as real + 1.0 <= k as real;
    } else if k < f {
      assert k as real + 1.0 <= f as real;
    }
  }

  function NearestMultiple(x: real, p: real): real
    requires p > 0.0
  {
    NearestInt(x * p) as real / p
  }

  function NearestAt(x: real, e: nat): real {
    NearestMultiple(x, Pow2(e) as real)
  }

  function Nearest(x: real, e: nat): real {
    if e == 0 then NearestAt(x, 0)
    else
      var a, b := NearestAt(x, e), Nearest(x, e - 1);
      if Distance(a, x) <= Distance(b, x) then a else b
  }

  lemma ScaledDistance(y: real, x: real, p: real)
    requires p > 0.0
    ensures Distance(y, x) * p == Distance(y * p, x * p)
  {
    assert (y - x) * p == y * p - x * p && (x - y) * p == x * p - y * p;
    Times(y, x, p);
  }

  lemma Closer(a: real, y: real, x: real, p: real)
    requires p > 0.0 && Distance(a * p, x * p) <= Distance(y * p, x * p)
    ensures Distance(a, x) <= Distance(y, x)
  {
    hide Distance;
    ScaledDistance(a, x, p);
    ScaledDistance(y, x, p);
    Times(Distance(a, x), Distance(y, x), p);
  }

  lemma Fraction(k: real, p: real)
    requires p > 0.0
    ensures k / p * p == k
  {
  }

  lemma MultipleIsBest(x: real, p: real, y: real, m: int)
    requires p > 0.0 && y * p == m as real && -TWO_TO_53 <= m <= TWO_TO_53
    ensures NearestMultiple(x, p) * p == NearestInt(x * p) as real
    ensures Distance(NearestMultiple(x, p), x) <= Distance(y, x)
  {
    hide NearestInt;
    var a, k := NearestMultiple(x, p), NearestInt(x * p);
    Fraction(k as real, p);
    hide NearestMultiple;
    NearestIntIsBest(x * p, m);
    assert a * p == k as real;
    assert Distance(a * p, x * p) == Distance(k as real, x * p);
    assert Distance(y * p, x * p) == Distance(m as real, x * p);
    hide Distance;
    Closer(a, y, x, p);
  }

  lemma NearestAtIsBest(x: real, e: nat, y: real, m: int)
    requires e <= 1074 && Significand(y, m, e)
    ensures IsDouble(NearestAt(x, e)) && Distance(NearestAt(x, e), x) <= Distance(y, x)
  {
    hide NearestInt, NearestMultiple, Distance, Pow2;
    var p := Pow2(e) as real;
    MultipleIsBest(x, p, y, m);
    assert Significand(NearestAt(x, e), NearestInt(x * p), e);
  }

  lemma {:induction false} NearestIsBest(x: real, e: nat, y: real, m: int, d: nat)
    requires d <= e <= 1074 && Significand(y, m, d)
    ensures IsDouble(Nearest(x, e)) && Distance(Nearest(x, e), x) <= Distance(y, x)
    decreases e
  {
    hide IsDouble, Significand, NearestAt;
    assert Significand(0.0, 0, e) by { ZeroIsDouble(e); }
    NearestAtIsBest(x, e, 0.0, 0);
    if d == e {
      NearestAtIsBest(x, e, y, m);
      if e > 0 {
        assert Significand(0.0, 0, 0) by { ZeroIsDouble(0); }
        NearestIsBest(x, e - 1, 0.0, 0, 0);
      }
    } else {
      NearestIsBest(x, e - 1, y, m, d);
    }
  }

  lemma ZeroIsDouble(e: nat)
    requires e <= 1074
    ensures Significand(0.0, 0, e)
  {
  }

  lemma RoundingExists()
    ensures Rounds(x => Nearest(x, 1074))
  {
    hide Nearest;
    var rounded := x => Nearest(x, 1074);
    forall x: real | 0.0 <= x <= 100.0
      ensures IsDouble(rounded(x)) && forall y: real :: IsDouble(y) ==> Distance(rounded(x), x) <= Distance(y, x)
    {
      ZeroIsDouble(0);
      NearestIsBest(x, 1074, 0.0, 0, 0);
      forall y: real | IsDouble(y) ensures Distance(rounded(x), x) <= Distance(y, x) {
        var m: int, e: nat :| Significand(y, m, e);
        NearestIsBest(x, 1074, y, m, e);
      }
    }
  }

  lemma RoundedGrows(rounded: real -> real, x: real, y: real)
    requires Rounds(rounded) && 0.0 <= x <= y <= 100.0
    ensures rounded(x) <= rounded(y)
  {
    hide IsDouble;
    assert Distance(rounded(x), x) <= Distance(rounded(y), x);
    assert Distance(rounded(y), y) <= Distance(rounded(x), y);
  }

  lemma RoundedStays(rounded: real -> real, y: real)
    requires Rounds(rounded) && 0.0 <= y <= 100.0 && IsDouble(y)
    ensures rounded(y) == y
  {
    hide IsDouble;
    assert Distance(rounded(y), y) <= Distance(y, y);
  }

  lemma {:induction false} PowerOfSum(a: nat, b: nat)
    ensures Pow2(a + b) == Pow2(a) * Pow2(b)
  {
    if a > 0 {
      PowerOfSum(a - 1, b);
    }
  }

  lemma BigPowers()
    ensures Pow2(46) == TWO_TO_46 && Pow2(53) == TWO_TO_53
  {
    assert Pow2(6) == 64;
    assert Pow2(7) == 128;
    assert Pow2(10) == 1024;
    PowerOfSum(10, 10);
    PowerOfSum(20, 20);
    PowerOfSum(40, 6);
    PowerOfSum(46, 7);
  }

  /** 0, 1, 100, and the doubles before 1 and before 100. */
  lemma SomeDoubles()
    ensures IsDouble(0.0) && IsDouble(1.0) && IsDouble(100.0)
    ensures IsDouble(1.0 - 1.0 / TWO_TO_53 as real) && IsDouble(100.0 - 1.0 / TWO_TO_46 as real)
  {
    assert Significand(0.0, 0, 0) && Significand(1.0, 1, 0) && Significand(100.0, 100, 0);
    BigPowers();
    assert Significand(1.0 - 1.0 / TWO_TO_53 as real, TWO_TO_53 - 1, 53);
    assert Significand(100.0 - 1.0 / TWO_TO_46 as real, 100 * TWO_TO_46 - 1, 46);
  }

  // -------------------------------------------------------------- percentages

  /** int(sent / total * 100), rounded after each operation. */
  function Percent(rounded: real -> real, sent: nat, total: nat): int
    requires total > 0
  {
    rounded(rounded(sent as real / total as real) * 100.0).Floor
  }

  lemma Ratio(sent: nat, total: nat)
    requires 0 < total && sent <= total
    ensures 0.0 <= sent as real / total as real <= 1.0
  {
  }

  lemma RatioGrows(a: nat, b: nat, total: nat)
    requires 0 < total && a <= b
    ensures a as real / total as real <= b as real / total as real
  {
    Times(a as real / total as real, b as real / total as real, total as real);
  }

  lemma Times(x: real, y: real, t: real)
    requires t > 0.0
    ensures x <= y <==> x * t <= y * t
  {
    assert (y - x) * t == y * t - x * t;
    assert y - x >= 0.0 <==> (y - x) * t >= 0.0;
  }

  lemma Itself(t: real)
    requires t > 0.0
    ensures t / t == 1.0
  {
  }

  lemma RatioBelowOne(sent: nat, total: nat)
    requires sent < total <= TWO_TO_53
    ensures sent as real / total as real <= 1.0 - 1.0 / TWO_TO_53 as real
  {
    var q, t, u := sent as real / total as real, total as real, 1.0 / TWO_TO_53 as real;
    assert q * t == sent as real <= t - 1.0;
    Times(t, TWO_TO_53 as real, u);
    assert TWO_TO_53 as real * u == 1.0;
    assert (1.0 - u) * t == t - t * u;
    Times(q, 1.0 - u, t);
  }

  lemma PercentGrows(rounded: real -> real, a: nat, b: nat, total: nat)
    requires Rounds(rounded) && 0 < total && a <= b <= total
    ensures 0 <= Percent(rounded, a, total) <= Percent(rounded, b, total) <= 100
  {
    hide Rounds, IsDouble;
    Ratio(a, total);
    Ratio(b, total);
    RatioGrows(a, b, total);
    SomeDoubles();
    var x, y := a as real / total as real, b as real / total as real;
    RoundedGrows(rounded, 0.0, x);
    RoundedGrows(rounded, x, y);
    RoundedGrows(rounded, y, 1.0);
    RoundedStays(rounded, 0.0);
    RoundedStays(rounded, 1.0);
    RoundedStays(rounded, 100.0);
    RoundedGrows(rounded, 0.0, rounded(x) * 100.0);
    RoundedGrows(rounded, rounded(x) * 100.0, rounded(y) * 100.0);
    RoundedGrows(rounded, rounded(y) * 100.0, 100.0);
  }

  /** Rounding neither reaches 100 too early nor misses it at the end, up to sizes of 2^53. */
  lemma PercentIs100(rounded: real -> real, sent: nat, total: nat)
    requires Rounds(rounded) && 0 < total <= TWO_TO_53 && sent <= total
    ensures Percent(rounded, sent, total) == 100 <==> sent == total
  {
    SomeDoubles();
    RoundedStays(rounded, 1.0);
    RoundedStays(rounded, 100.0);
    if sent < total {
      hide Rounds, IsDouble;
      Ratio(sent, total);
      RatioBelowOne(sent, total);
      var q, below := sent as real / total as real, 1.0 - 1.0 / TWO_TO_53 as real;
      RoundedStays(rounded, below);
      RoundedGrows(rounded, q, below);
      RoundedStays(rounded, 0.0);
      RoundedGrows(rounded, 0.0, q);
      RoundedGrows(rounded, rounded(q) * 100.0, below * 100.0);
      RoundedBelow100(rounded);
    } else {
      Itself(total as real);
    }
  }

  lemma RoundedBelow100(rounded: real -> real)
    requires Rounds(rounded)
    ensures rounded((1.0 - 1.0 / TWO_TO_53 as real) * 100.0) < 100.0
  {
    SomeDoubles();
    hide IsDouble;
    var x, y := (1.0 - 1.0 / TWO_TO_53 as real) * 100.0, 100.0 - 1.0 / TWO_TO_46 as real;
    assert Distance(rounded(x), x) <= Distance(y, x);
  }

  lemma GridDouble(x: real, e: nat) returns (y: real)
    requires 0.0 <= x && e <= 1074 && x * Pow2(e) as real <= TWO_TO_53 as real
    ensures IsDouble(y) && y <= x && (x - y) * Pow2(e) as real < 1.0
  {
    var p := Pow2(e) as real;
    var m := (x * p).Floor;
    y := m as real / p;
    Fraction(m as real, p);
    hide Pow2;
    assert Significand(y, m, e);
    Floored(y, x, p, m as real);
  }

  lemma Floored(y: real, x: real, p: real, m: real)
    requires p > 0.0 && y * p == m && m <= x * p < m + 1.0
    ensures y <= x && (x - y) * p < 1.0
  {
    Times(y, x, p);
    assert (x - y) * p == x * p - y * p;
  }

  lemma Within(x: real, y: real, p: real)
    requires p > 0.0 && y <= x && (x - y) * p < 1.0
    ensures Distance(y, x) <= 1.0 / p
  {
    Times(x - y, 1.0 / p, p);
    Fraction(1.0, p);
  }

  /** Rounding is off by at most a place of the grid with `e` binary places. */
  lemma RoundedIsNear(rounded: real -> real, x: real, e: nat)
    requires Rounds(rounded) && 0.0 <= x <= 100.0 && e <= 1074 && x * Pow2(e) as real <= TWO_TO_53 as real
    ensures Distance(rounded(x), x) <= 1.0 / Pow2(e) as real
  {
    hide IsDouble, Pow2;
    var y := GridDouble(x, e);
    Within(x, y, Pow2(e) as real);
  }

  lemma IntTimes(a: int, b: int)
    ensures (a * b) as real == a as real * b as real
  {
  }

  lemma Quotient(a: real, t: real, f: real)
    requires t > 0.0 && f * t <= a < (f + 1.0) * t
    ensures f <= a / t < f + 1.0
  {
    Fraction(a, t);
    Times(f, a / t, t);
    Times(f + 1.0, a / t, t);
  }

  lemma Hundredfold(s: real, t: real)
    requires t > 0.0
    ensures s / t * 100.0 == 100.0 * s / t
  {
  }

  lemma ExactPercent(sent: nat, total: nat)
    requires 0 < total && sent <= total
    ensures var q := sent as real / total as real;
            (100 * sent / total) as real <= q * 100.0 < (100 * sent / total) as real + 1.0
  {
    var f := 100 * sent / total;
    DivBounds(100 * sent, total);
    IntTimes(f, total);
    IntTimes(f + 1, total);
    Quotient(100.0 * sent as real, total as real, f as real);
    Hundredfold(sent as real, total as real);
  }

  lemma DivBounds(a: nat, b: nat)
    requires b > 0
    ensures a / b * b <= a < (a / b + 1) * b
  {
  }

  /** The rounded percentage is the exact one, or next to it. */
  lemma PercentIsNear(rounded: real -> real, sent: nat, total: nat)
    requires Rounds(rounded) && 0 < total && sent <= total
    ensures 100 * sent / total - 1 <= Percent(rounded, sent, total) <= 100 * sent / total + 1
  {
    hide Rounds, IsDouble;
    var q := sent as real / total as real;
    Ratio(sent, total);
    BigPowers();
    hide Pow2;
    RoundedIsNear(rounded, q, 53);
    SomeDoubles();
    RoundedStays(rounded, 0.0);
    RoundedStays(rounded, 1.0);
    RoundedGrows(rounded, 0.0, q);
    RoundedGrows(rounded, q, 1.0);
    RoundedIsNear(rounded, rounded(q) * 100.0, 46);
    ExactPercent(sent, total);
  }

  // ---------------------------------------------------------------- callbacks

  /** `calls` are the whole percents at which the handler was called. */
  datatype Meter = Meter(sent: nat, percent: int, calls: seq<int>)

  const START := Meter(0, 0, [])

  function DirNext(total: nat, m: Meter, n: nat, p: int): Meter {
    if p != 100 && ((total < TEN_MIB && p < 100) || p - m.percent < 5) then m.(sent := m.sent + n)
    else Meter(m.sent + n, p, m.calls + [p])
  }

  function FileNext(m: Meter, n: nat, p: int): Meter {
    Meter(m.sent + n, p, if p > m.percent then m.calls + [p] else m.calls)
  }

  function Sum(chunks: seq<nat>): nat {
    if chunks == [] then 0 else Sum(chunks[..|chunks| - 1]) + chunks[|chunks| - 1]
  }

  lemma SumOneMore(chunks: seq<nat>, n: nat)
    ensures Sum(chunks + [n]) == Sum(chunks) + n
  {
    assert (chunks + [n])[..|chunks|] == chunks;
  }

  /** The state of PushDir's closure after the chunks of a file. */
  function DirAfter(rounded: real -> real, total: nat, chunks: seq<nat>): Meter {
    if chunks == [] || total == 0 then START
    else
      var m := DirAfter(rounded, total, chunks[..|chunks| - 1]);
      var n := chunks[|chunks| - 1];
      DirNext(total, m, n, Percent(rounded, m.sent + n, total))
  }

  /** The state of PushFileCtx's closure. */
  function FileAfter(rounded: real -> real, total: nat, chunks: seq<nat>): Meter {
    if chunks == [] || total == 0 then START
    else
      var m := FileAfter(rounded, total, chunks[..|chunks| - 1]);
      var n := chunks[|chunks| - 1];
      FileNext(m, n, Percent(rounded, m.sent + n, total))
  }

  predicate Increasing(calls: seq<int>) {
    forall i, j :: 0 <= i < j < |calls| ==> calls[i] < calls[j]
  }

  predicate Positive(chunks: seq<nat>) {
    forall n :: n in chunks ==> n > 0
  }

  /** At most `most` callbacks at strictly increasing percents, the last of them at 100. */
  predicate GoodCalls(calls: seq<int>, most: nat) {
    1 <= |calls| <= most && Increasing(calls) && calls[|calls| - 1] == 100
  }

  /** Below 100 percent, each call is at least `step` above the one before. */
  predicate Below(m: Meter, step: nat) {
    && Increasing(m.calls) && 0 <= m.percent < 100 && step * |m.calls| <= m.percent
    && (if m.calls == [] then m.percent == 0 else m.calls[|m.calls| - 1] == m.percent)
  }

  predicate DirInv(total: nat, m: Meter) {
    if m.sent < total then Below(m, 5) && (total < TEN_MIB ==> m.calls == [])
    else GoodCalls(m.calls, 20) && (total < TEN_MIB ==> m.calls == [100])
  }

  ghost predicate FileInv(rounded: real -> real, total: nat, m: Meter)
    requires total > 0
  {
    if m.sent < total then Below(m, 1) && m.percent == Percent(rounded, m.sent, total) else GoodCalls(m.calls, 100)
  }

  lemma DirStep(rounded: real -> real, total: nat, m: Meter, n: nat)
    requires Rounds(rounded) && 0 < total <= TWO_TO_53 && m.sent < total && m.sent + n <= total && DirInv(total, m)
    ensures DirInv(total, DirNext(total, m, n, Percent(rounded, m.sent + n, total)))
  {
    PercentIs100(rounded, m.sent + n, total);
    PercentGrows(rounded, m.sent + n, m.sent + n, total);
    hide Percent, Rounds;
  }

  lemma FileStep(rounded: real -> real, total: nat, m: Meter, n: nat)
    requires Rounds(rounded) && 0 < total <= TWO_TO_53 && m.sent < total && m.sent + n <= total
    requires FileInv(rounded, total, m)
    ensures FileInv(rounded, total, FileNext(m, n, Percent(rounded, m.sent + n, total)))
  {
    PercentIs100(rounded, m.sent + n, total);
    PercentGrows(rounded, m.sent, m.sent + n, total);
    hide Percent, Rounds;
  }

  lemma FileStart(rounded: real -> real, total: nat)
    requires Rounds(rounded) && 0 < total <= TWO_TO_53
    ensures FileInv(rounded, total, START)
  {
    SomeDoubles();
    RoundedStays(rounded, 0.0);
    assert 0 as real / total as real == 0.0;
  }

  lemma ChunksSplit(chunks: seq<nat>)
    requires chunks != [] && Positive(chunks)
    ensures var front, n := chunks[..|chunks| - 1], chunks[|chunks| - 1];
            Positive(front) && n > 0 && Sum(chunks) == Sum(front) + n
  {
    var front, n := chunks[..|chunks| - 1], chunks[|chunks| - 1];
    assert n in chunks && forall x :: x in front ==> x in chunks;
  }

  lemma DirOneMore(rounded: real -> real, total: nat, chunks: seq<nat>, n: nat)
    requires total > 0
    ensures var m := DirAfter(rounded, total, chunks);
            DirAfter(rounded, total, chunks + [n]) == DirNext(total, m, n, Percent(rounded, m.sent + n, total))
  {
    hide DirNext, Percent;
    var all := chunks + [n];
    assert all != [] && all[..|all| - 1] == chunks && all[|all| - 1] == n;
  }

  lemma FileOneMore(rounded: real -> real, total: nat, chunks: seq<nat>, n: nat)
    requires total > 0
    ensures var m := FileAfter(rounded, total, chunks);
            FileAfter(rounded, total, chunks + [n]) == FileNext(m, n, Percent(rounded, m.sent + n, total))
  {
    hide FileNext, Percent;
    var all := chunks + [n];
    assert all != [] && all[..|all| - 1] == chunks && all[|all| - 1] == n;
  }

  lemma {:induction false} DirBelow(rounded: real -> real, total: nat, chunks: seq<nat>)
    requires Rounds(rounded) && 0 < total <= TWO_TO_53 && Positive(chunks) && Sum(chunks) <= total
    ensures DirInv(total, DirAfter(rounded, total, chunks)) && DirAfter(rounded, total, chunks).sent == Sum(chunks)
    decreases |chunks|
  {
    hide Rounds, Percent;
    if chunks != [] {
      hide DirInv, DirNext, DirAfter;
      ChunksSplit(chunks);
      var front, n := chunks[..|chunks| - 1], chunks[|chunks| - 1];
      DirBelow(rounded, total, front);
      var m := DirAfter(rounded, total, front);
      assert chunks == front + [n];
      DirOneMore(rounded, total, front, n);
      DirStep(rounded, total, m, n);
      DirCounts(total, m, n, Percent(rounded, m.sent + n, total));
    }
  }

  lemma NothingSent(rounded: real -> real, total: nat)
    ensures FileAfter(rounded, total, []) == START && Sum([]) == 0
  {
  }

  lemma {:induction false} FileBelow(rounded: real -> real, total: nat, chunks: seq<nat>)
    requires Rounds(rounded) && 0 < total <= TWO_TO_53 && Positive(chunks) && Sum(chunks) <= total
    ensures FileInv(rounded, total, FileAfter(rounded, total, chunks))
    ensures FileAfter(rounded, total, chunks).sent == Sum(chunks)
    decreases |chunks|
  {
    hide Rounds, Percent, FileInv, FileNext, FileAfter, Sum;
    NothingSent(rounded, total);
    if chunks == [] {
      FileStart(rounded, total);
    } else {
      ChunksSplit(chunks);
      var front, n := chunks[..|chunks| - 1], chunks[|chunks| - 1];
      FileBelow(rounded, total, front);
      var m := FileAfter(rounded, total, front);
      assert chunks == front + [n];
      FileOneMore(rounded, total, front, n);
      FileStep(rounded, total, m, n);
      FileCounts(m, n, Percent(rounded, m.sent + n, total));
    }
  }

  lemma DirCounts(total: nat, m: Meter, n: nat, p: int)
    ensures DirNext(total, m, n, p).sent == m.sent + n
  {
  }

  lemma FileCounts(m: Meter, n: nat, p: int)
    ensures FileNext(m, n, p).sent == m.sent + n
  {
  }

  lemma FileEnds(rounded: real -> real, total: nat, m: Meter)
    requires total > 0 && FileInv(rounded, total, m) && m.sent == total
    ensures GoodCalls(m.calls, 100)
  {
  }

  /**
    PushDir's filter, for the chunks of a non-empty file of unchanged size: at most 20 callbacks with
    strictly increasing percents, the last one and only that one at 100; below 10 MiB it is the only
    one.
  */
  lemma DirCallbacks(rounded: real -> real, total: nat, chunks: seq<nat>)
    requires Rounds(rounded) && 0 < total <= TWO_TO_53 && Positive(chunks) && Sum(chunks) == total
    ensures var calls := DirAfter(rounded, total, chunks).calls;
            GoodCalls(calls, 20) && (total < TEN_MIB ==> calls == [100])
  {
    hide Rounds, DirAfter;
    DirBelow(rounded, total, chunks);
  }

  /** PushFileCtx: at most 100 callbacks with strictly increasing percents, the last one at 100. */
  lemma FileCallbacks(rounded: real -> real, total: nat, chunks: seq<nat>)
    requires Rounds(rounded) && 0 < total <= TWO_TO_53 && Positive(chunks) && Sum(chunks) == total
    ensures GoodCalls(FileAfter(rounded, total, chunks).calls, 100)
  {
    hide Rounds, FileAfter;
    FileBelow(rounded, total, chunks);
    FileEnds(rounded, total, FileAfter(rounded, total, chunks));
  }

  /** The percent of the last callback; 0 before the first. */
  function LastCall(calls: seq<int>): int {
    if calls == [] then 0 else calls[|calls| - 1]
  }

  /**
    Which chunks are reported by PushDir: the one that completes the file, and from 10 MiB on every one
    that brings at least five percent more than the last report.
  */
  lemma DirReports(rounded: real -> real, total: nat, chunks: seq<nat>, n: nat)
    requires Rounds(rounded) && 0 < total <= TWO_TO_53 && Positive(chunks) && n > 0 && Sum(chunks) + n <= total
    ensures var before := DirAfter(rounded, total, chunks).calls;
            var p := Percent(rounded, Sum(chunks) + n, total);
            DirAfter(rounded, total, chunks + [n]).calls
            == before + (if p == 100 || (total >= TEN_MIB && p - LastCall(before) >= 5) then [p] else [])
  {
    hide Rounds, Percent, DirInv, DirNext, DirAfter;
    DirBelow(rounded, total, chunks);
    PercentGrows(rounded, Sum(chunks) + n, Sum(chunks) + n, total);
    DirLast(total, DirAfter(rounded, total, chunks));
    DirOneMore(rounded, total, chunks, n);
    DirFilter(total, DirAfter(rounded, total, chunks), n, Percent(rounded, Sum(chunks) + n, total));
  }

  lemma DirLast(total: nat, m: Meter)
    requires DirInv(total, m) && m.sent < total
    ensures LastCall(m.calls) == m.percent
  {
  }

  lemma DirFilter(total: nat, m: Meter, n: nat, p: int)
    requires LastCall(m.calls) == m.percent && p <= 100
    ensures DirNext(total, m, n, p).calls
            == m.calls + (if p == 100 || (total >= TEN_MIB && p - LastCall(m.calls) >= 5) then [p] else [])
  {
    Nothing(m.calls);
  }

  lemma Nothing(calls: seq<int>)
    ensures calls + [] == calls
  {
  }

  /** Which chunks are reported by PushFileCtx: every one that brings a higher whole percent. */
  lemma FileReports(rounded: real -> real, total: nat, chunks: seq<nat>, n: nat)
    requires Rounds(rounded) && 0 < total <= TWO_TO_53 && Positive(chunks) && n > 0 && Sum(chunks) + n <= total
    ensures var before := FileAfter(rounded, total, chunks).calls;
            var p := Percent(rounded, Sum(chunks) + n, total);
            FileAfter(rounded, total, chunks + [n]).calls == before + (if p > LastCall(before) then [p] else [])
  {
    hide Rounds, Percent, FileInv, FileNext, FileAfter;
    FileBelow(rounded, total, chunks);
    FileLast(rounded, total, FileAfter(rounded, total, chunks));
    FileOneMore(rounded, total, chunks, n);
    FileFilter(FileAfter(rounded, total, chunks), n, Percent(rounded, Sum(chunks) + n, total));
  }

  lemma FileLast(rounded: real -> real, total: nat, m: Meter)
    requires total > 0 && FileInv(rounded, total, m) && m.sent < total
    ensures LastCall(m.calls) == m.percent
  {
    hide Percent;
  }

  lemma FileFilter(m: Meter, n: nat, p: int)
    requires LastCall(m.calls) == m.percent
    ensures FileNext(m, n, p).calls == m.calls + (if p > LastCall(m.calls) then [p] else [])
  {
    Nothing(m.calls);
  }

  /** The closure of SyncConn.PushDir for one file. */
  class DirProgress {
    const totalSize: nat
    const rounded: real -> real
    var sentSize: nat
    var percent: int
    var calls: seq<int>

    function State(): Meter
      reads this
    {
      Meter(sentSize, percent, calls)
    }

    constructor (totalSize: nat, rounded: real -> real)
      ensures this.totalSize == totalSize && this.rounded == rounded && State() == START
    {
      this.totalSize, this.rounded, sentSize, percent, calls := totalSize, rounded, 0, 0, [];
    }

    method OnChunk(n: nat)
      requires totalSize > 0
      modifies this
      ensures State() == DirNext(totalSize, old(State()), n, Percent(rounded, old(sentSize) + n, totalSize))
    {
      sentSize := sentSize + n;
      var percent2 := rounded(rounded(sentSize as real / totalSize as real) * 100.0).Floor;
      if percent2 == 100 {
      } else if totalSize < TEN_MIB && percent2 < 100 {
        return;
      } else if percent2 - percent < 5 {
        return;
      }
      percent := percent2;
      calls := calls + [percent];
    }

    /** One call for each chunk of a file; an empty file has no chunk and no callback. */
    method OnChunks(chunks: seq<nat>)
      requires State() == START && Rounds(rounded) && totalSize <= TWO_TO_53
      requires Positive(chunks) && Sum(chunks) == totalSize
      modifies this
      ensures State() == DirAfter(rounded, totalSize, chunks)
      ensures if totalSize == 0 then calls == [] else GoodCalls(calls, 20) && (totalSize < TEN_MIB ==> calls == [100])
    {
      hide Rounds, Percent, DirNext, GoodCalls;
      NoChunks(chunks);
      for i := 0 to |chunks|
        invariant State() == DirAfter(rounded, totalSize, chunks[..i])
      {
        assert chunks[..i + 1][..i] == chunks[..i];
        OnChunk(chunks[i]);
      }
      assert chunks[..|chunks|] == chunks;
      if totalSize > 0 {
        DirCallbacks(rounded, totalSize, chunks);
      }
    }
  }

  lemma NoChunks(chunks: seq<nat>)
    requires Positive(chunks)
    ensures Sum(chunks) == 0 <==> chunks == []
  {
    if chunks != [] {
      ChunksSplit(chunks);
    }
  }

  /** The closure of Device.PushFileCtx. */
  class FileProgress {
    const total: nat
    const rounded: real -> real
    var sent: nat
    var percent: int
    var calls: seq<int>

    function State(): Meter
      reads this
    {
      Meter(sent, percent, calls)
    }

    constructor (total: nat, rounded: real -> real)
      ensures this.total == total && this.rounded == rounded && State() == START
    {
      this.total, this.rounded, sent, percent, calls := total, rounded, 0, 0, [];
    }

    method OnChunk(n: nat)
      requires total > 0
      modifies this
      ensures State() == FileNext(old(State()), n, Percent(rounded, old(sent) + n, total))
    {
      sent := sent + n;
      var curPercent := rounded(rounded(sent as real / total as real) * 100.0);
      if curPercent.Floor > percent {
        calls := calls + [curPercent.Floor];
      }
      percent := curPercent.Floor;
    }

    /** One call for each chunk of a file. */
    method OnChunks(chunks: seq<nat>)
      requires State() == START && Rounds(rounded) && total <= TWO_TO_53
      requires Positive(chunks) && Sum(chunks) == total
      modifies this
      ensures State() == FileAfter(rounded, total, chunks)
      ensures if total == 0 then calls == [] else GoodCalls(calls, 100)
    {
      hide Rounds, Percent, FileNext, GoodCalls;
      NoChunks(chunks);
      for i := 0 to |chunks|
        invariant State() == FileAfter(rounded, total, chunks[..i])
      {
        assert chunks[..i + 1][..i] == chunks[..i];
        OnChunk(chunks[i]);
      }
      assert chunks[..|chunks|] == chunks;
      if total > 0 {
        FileCallbacks(rounded, total, chunks);
      }
    }
  }
}
