/** The incremental round-trip-time statistics of pkg/pinger/statistics.go: a window array with a
    reset, and a Welford recurrence whose two means are both truncated to integers. */
module PingerStatistics {

  // ----- integer arithmetic of the source -----

  /** Go's integer division, which truncates toward zero, by repeated subtraction. */
  function TruncDiv(a: int, b: int): (q: int)
    requires b > 0
    ensures a >= 0 ==> q >= 0
    decreases if a < 0 then 1 - 2 * a else 2 * a
  {
    if a < 0 then -TruncDiv(-a, b)
    else if a < b then 0
    else 1 + TruncDiv(a - b, b)
  }

  /** TruncDiv agrees with Dafny's division on the magnitude and takes the sign of the dividend. */
  lemma TruncDivTruncates(a: int, b: int)
    requires b > 0
    ensures TruncDiv(a, b) == if a >= 0 then a / b else -((-a) / b)
  {
    var p := if a >= 0 then a else -a;
    var q := TruncDiv(p, b);
    QuotientIsMean(p, b);
    QuotientUnique(p, b, q, p - q * b);
  }

  lemma QuotientUnique(a: int, b: int, q: int, r: int)
    requires b > 0 && a == q * b + r && 0 <= r < b
    ensures a / b == q && a % b == r
  {
    if a / b > q { MulBetween(q + 1, q + 1, a / b, b); }
    if a / b < q { MulBetween(a / b, a / b, q - 1, b); }
  }

  /** The integer part of a square root; a negative argument has none and yields 0. */
  function FloorSqrt(q: int): (r: nat)
    ensures q >= 0 ==> r * r <= q < (r + 1) * (r + 1)
    decreases if q < 0 then 0 else q
  {
    if q <= 0 then 0
    else
      var r := FloorSqrt(q - 1);
      if (r + 1) * (r + 1) <= q then r + 1 else r
  }

  // ----- the state as a value -----

  /** `window` is previousRtts[..index]; the array beyond `index` is never read. */
  datatype Stats = Stats(size: nat, window: seq<int>, sum: int, mean: int, stdDev: int,
                         lastRtt: int, minRtt: int, maxRtt: int, sqrDiff: int)

  function Initial(size: nat): Stats {
    Stats(size, [], 0, 0, 0, 0, 0, 0, 0)
  }

  /** A full window restarts from its two newest samples. */
  function Restarted(s: Stats): Stats
    requires s.size >= 3
  {
    if |s.window| != s.size then s
    else
      var a, b := s.window[s.size - 2], s.window[s.size - 1];
      var mean := TruncDiv(a + b, 2);
      s.(window := [a, b], sum := a + b, mean := mean,
         sqrDiff := (a - mean) * (a - mean) + (b - mean) * (b - mean))
  }

  function Extended(s: Stats, rtt: int): Stats {
    if s.window == [] then
      s.(window := [rtt], sum := rtt, mean := rtt, stdDev := 0, minRtt := rtt, maxRtt := rtt, sqrDiff := 0)
    else
      var n := |s.window| + 1;
      var sum := s.sum + rtt;
      var mean := TruncDiv(sum, n);
      var sqrDiff := s.sqrDiff + (rtt - s.mean) * (rtt - mean);
      s.(window := s.window + [rtt], sum := sum, mean := mean, sqrDiff := sqrDiff,
         stdDev := FloorSqrt(TruncDiv(sqrDiff, n)),
         minRtt := if s.minRtt == 0 || s.minRtt > rtt then rtt else s.minRtt,
         maxRtt := if s.maxRtt < rtt then rtt else s.maxRtt)
  }

  function Updated(s: Stats, rtt: int): Stats
    requires s.size >= 3
  {
    Extended(Restarted(s.(lastRtt := rtt)), rtt)
  }

  function Run(size: nat, samples: seq<int>): (s: Stats)
    requires size >= 3
    ensures s.size == size
  {
    if samples == [] then Initial(size)
    else Updated(Run(size, samples[..|samples| - 1]), samples[|samples| - 1])
  }

  // ----- the in-place implementation -----

  class Statistics {
    var previousRtts: array<int>
    var sum: int
    var mean: int
    var stdDev: int
    var lastRtt: int
    var minRtt: int
    var maxRtt: int
    var sqrDiff: int
    var index: int
    const size: int

    ghost predicate Valid()
      reads this
    {
      size >= 3 && previousRtts.Length == size && 0 <= index <= size
    }

    ghost function Value(): Stats
      requires Valid()
      reads this, previousRtts
    {
      Stats(size, previousRtts[..index], sum, mean, stdDev, lastRtt, minRtt, maxRtt, sqrDiff)
    }

    constructor (size: int)
      requires size >= 3
      ensures Valid() && Value() == Initial(size) && fresh(previousRtts)
    {
      this.size := size;
      previousRtts := new int[size];
      sum, mean, stdDev, lastRtt, minRtt, maxRtt, sqrDiff, index := 0, 0, 0, 0, 0, 0, 0, 0;
    }

    method Restart()
      requires Valid()
      modifies this, previousRtts
      ensures Valid() && previousRtts == old(previousRtts)
      ensures Value() == Restarted(old(Value()))
    {
      if index == size {
        index := 2;
        previousRtts[0] := previousRtts[size - 2];
        previousRtts[1] := previousRtts[size - 1];
        sum := previousRtts[0] + previousRtts[1];
        mean := TruncDiv(sum, 2);
        sqrDiff :=
          (previousRtts[0] - mean) * (previousRtts[0] - mean) + (previousRtts[1] - mean) * (previousRtts[1] - mean);
        assert previousRtts[..index] == [old(previousRtts[size - 2]), old(previousRtts[size - 1])];
      }
    }

    method Update(rtt: int)
      requires Valid()
      modifies this, previousRtts
      ensures Valid() && previousRtts == old(previousRtts)
      ensures Value() == Updated(old(Value()), rtt)
    {
      lastRtt := rtt;
      Restart();
      if index + 1 > 1 {
        Extend(rtt);
      } else {
        sum := rtt;
        sqrDiff := 0;
        minRtt := rtt;
        maxRtt := rtt;
        mean := rtt;
        sum := rtt;
        previousRtts[index] := rtt;
        stdDev := 0;
        index := index + 1;
        assert previousRtts[..index] == [rtt];
      }
    }

    method Extend(rtt: int)
      requires Valid() && 0 < index < size
      modifies this, previousRtts
      ensures Valid() && previousRtts == old(previousRtts)
      ensures Value() == Extended(old(Value()), rtt)
    {
      ghost var s := Value();
      previousRtts[index] := rtt;
      if minRtt == 0 || minRtt > rtt {
        minRtt := rtt;
      }
      if maxRtt < rtt {
        maxRtt := rtt;
      }
      assert previousRtts[..index + 1] == s.window + [rtt];
      var n := index + 1;
      sum := sum + rtt;
      var oldMean := mean;
      mean := TruncDiv(sum, n);
      sqrDiff := sqrDiff + (rtt - oldMean) * (rtt - mean);
      stdDev := FloorSqrt(TruncDiv(sqrDiff, n));
      index := n;
    }
  }

  // ----- what the numbers are meant to be -----

  function Sum(w: seq<int>): int {
    if w == [] then 0 else Sum(w[..|w| - 1]) + w[|w| - 1]
  }

  function SumSq(w: seq<int>): int {
    if w == [] then 0 else SumSq(w[..|w| - 1]) + w[|w| - 1] * w[|w| - 1]
  }

  /** |w|^2 times the variance of w, as an integer. */
  function Spread(w: seq<int>): int {
    SpreadOf(|w|, SumSq(w), Sum(w))
  }

  function SpreadOf(n: int, sumSq: int, sum: int): int {
    n * sumSq - sum * sum
  }

  ghost predicate Bounded(w: seq<int>, bound: int) {
    forall i :: 0 <= i < |w| ==> 1 <= w[i] <= bound
  }

  /** How far |w| * sqrDiff may be from the true spread because means are truncated. */
  function Slack(n: int, bound: int): int {
    n * n * (2 * bound + 1)
  }

  ghost predicate Accurate(s: Stats, bound: int) {
    var n := |s.window|;
    && 1 <= n <= s.size
    && Bounded(s.window, bound)
    && s.sum == Sum(s.window)
    && IsMean(s.mean, s.sum, n)
    && 0 <= s.sqrDiff <= n * (bound * bound)
    && -Slack(n, bound) <= n * s.sqrDiff - Spread(s.window) <= Slack(n, bound)
    && (n == 1 ==> s.stdDev == 0)
    && (n > 1 ==> s.stdDev * s.stdDev <= TruncDiv(s.sqrDiff, n) < (s.stdDev + 1) * (s.stdDev + 1) && s.stdDev >= 0)
  }

  /** All of Accurate but stdDev, which the restart leaves for the following step to set. */
  ghost predicate AccurateMoments(s: Stats, bound: int) {
    var n := |s.window|;
    && 1 <= n <= s.size
    && Bounded(s.window, bound)
    && s.sum == Sum(s.window)
    && IsMean(s.mean, s.sum, n)
    && 0 <= s.sqrDiff <= n * (bound * bound)
    && -Slack(n, bound) <= n * s.sqrDiff - Spread(s.window) <= Slack(n, bound)
  }

  // ----- algebra -----

  lemma {:induction false} SumBounds(w: seq<int>, bound: int)
    requires Bounded(w, bound)
    ensures |w| <= Sum(w) <= |w| * bound
  {
    if w != [] {
      SumBounds(w[..|w| - 1], bound);
    }
  }

  lemma MulBetween(a: int, lo: int, hi: int, k: int)
    requires lo <= a <= hi && k >= 0
    ensures lo * k <= a * k <= hi * k
  {
  }

  lemma MulCancel(n: int, a: int, b: int)
    requires n >= 1 && n * a <= n * b
    ensures a <= b
  {
    if a >= b + 1 { MulBetween(b + 1, b + 1, a, n); }
  }

  lemma MulAbs(a: int, b: int, p: int, q: int)
    requires -p <= a <= p && -q <= b <= q
    ensures -(p * q) <= a * b <= p * q
  {
    if a >= 0 {
      MulBetween(b, -q, q, a);
      MulBetween(a, 0, p, q);
    } else {
      MulBetween(b, -q, q, -a);
      MulBetween(-a, 0, p, q);
    }
  }

  lemma SquareNonNegative(a: int)
    ensures 0 <= a * a
  {
  }

  /** `m` is the truncated mean of n positive numbers whose sum is `sum`. */
  ghost predicate IsMean(m: int, sum: int, n: int) {
    n >= 1 && n * m <= sum < n * m + n
  }

  lemma {:induction false} QuotientIsMean(sum: int, n: int)
    requires n >= 1 && sum >= 0
    ensures IsMean(TruncDiv(sum, n), sum, n)
    decreases sum
  {
    if sum >= n { QuotientIsMean(sum - n, n); }
  }

  lemma MeanBetween(m: int, sum: int, n: int, lo: int, hi: int)
    requires IsMean(m, sum, n) && n * lo <= sum <= n * hi
    ensures lo <= m <= hi
  {
    if m < lo { MulBetween(m + 1, m + 1, lo, n); }
    MulCancel(n, m, hi);
  }

  /** The new mean lies between the old mean and the new sample. */
  lemma MeanMovesTowardSample(x: int, m: int, m': int, sum: int, n: int)
    requires IsMean(m, sum, n) && IsMean(m', sum + x, n + 1)
    ensures x > m ==> m' <= x
    ensures x < m ==> m' >= x
  {
    if x > m {
      MulBetween(m, m, x - 1, n);
      if m' > x { MulBetween(x + 1, x + 1, m', n + 1); }
    } else if x < m {
      MulBetween(x + 1, x + 1, m, n);
      if m' < x { MulBetween(m', m', x - 1, n + 1); }
    }
  }

  /** One truncated Welford increment is a product of two numbers of the same sign. */
  lemma IncrementNonNegative(x: int, m: int, m': int, sum: int, n: int, bound: int)
    requires IsMean(m, sum, n) && IsMean(m', sum + x, n + 1)
    requires 1 <= m <= bound && 1 <= m' <= bound && 1 <= x <= bound
    ensures 0 <= (x - m) * (x - m') <= bound * bound
  {
    MeanMovesTowardSample(x, m, m', sum, n);
    MulAbs(x - m, x - m', bound, bound);
    SameSign(x - m, x - m');
  }

  lemma SameSign(a: int, b: int)
    requires a > 0 ==> b >= 0
    requires a < 0 ==> b <= 0
    ensures 0 <= a * b
  {
    if a > 0 { MulBetween(b, 0, b, a); }
    if a < 0 { MulBetween(-b, 0, -b, -a); }
  }

  /** How the spread of n numbers with the sum `sum` changes when x is added to them. */
  ghost predicate SpreadGrows(n: int, x: int, sum: int, spread: int, spread': int) {
    n * spread' == (n + 1) * spread + (n * x - sum) * (n * x - sum)
  }

  lemma SpreadIdentity(n: int, s: int, a: int, x: int, q: int)
    requires q == x * x
    ensures SpreadGrows(n, x, s, SpreadOf(n, a, s), SpreadOf(n + 1, a + q, s + x))
  {
    var na, nq, ss, sx := n * a, n * q, s * s, s * x;
    assert SpreadOf(n + 1, a + q, s + x) == na + nq + a + q - (ss + 2 * sx + q) by {
      Product(n, a + q, na + nq);
      Distribute(n, a, q, 0);
      SquareOfSum(s, x);
    }
    LeftSide(n, na, nq, a, ss, sx);
    RightSide(n, na, ss);
    DifferenceSquared(n, x, s, nq, sx, q);
  }

  lemma Product(n: int, b: int, nb: int)
    requires nb == n * b
    ensures (n + 1) * b == nb + b
  {
  }

  lemma SquareOfSum(s: int, x: int)
    ensures (s + x) * (s + x) == s * s + 2 * (s * x) + x * x
  {
  }

  lemma LeftSide(n: int, na: int, nq: int, a: int, ss: int, sx: int)
    ensures n * (na + nq + a - ss - 2 * sx) == n * na + n * nq + n * a - n * ss - 2 * (n * sx)
  {
  }

  lemma RightSide(n: int, na: int, ss: int)
    ensures (n + 1) * (na - ss) == n * na - n * ss + na - ss
  {
  }

  lemma DifferenceSquared(n: int, x: int, s: int, nq: int, sx: int, q: int)
    requires q == x * x && nq == n * q && sx == s * x
    ensures (n * x - s) * (n * x - s) == n * nq - 2 * (n * sx) + s * s
  {
    var nx := n * x;
    SquareOfSum(nx, -s);
    Swap(n, x, n * x);
    Swap(n, x, s);
    assert nx * nx == n * nq by { ProductSquared(n, x, q, nq); }
    assert nx * s == n * sx;
    assert nx * -s == -(nx * s);
  }

  lemma ProductSquared(n: int, x: int, q: int, nq: int)
    requires q == x * x && nq == n * q
    ensures (n * x) * (n * x) == n * nq
  {
    Swap(n * x, n, x);
    assert x * (n * x) == n * q by { Swap(x, n, x); }
    assert (n * x) * (n * x) == n * (x * (n * x)) by { Regroup(n, x, n * x); }
  }

  lemma Regroup(a: int, b: int, c: int)
    ensures (a * b) * c == a * (b * c)
  {
  }

  lemma SumStep(w: seq<int>, x: int)
    ensures Sum(w + [x]) == Sum(w) + x && SumSq(w + [x]) == SumSq(w) + x * x
  {
    assert (w + [x])[..|w|] == w;
  }

  /** The spread after one more sample, in terms of the spread before it. */
  lemma SpreadStep(w: seq<int>, x: int)
    ensures Sum(w + [x]) == Sum(w) + x
    ensures SpreadGrows(|w|, x, Sum(w), Spread(w), Spread(w + [x]))
  {
    SumStep(w, x);
    SpreadIdentity(|w|, Sum(w), SumSq(w), x, x * x);
  }

  /** The error d of the recurrence becomes d' with n d' == (n + 1) d + e, and e is small. */
  lemma IncrementError(x: int, m: int, m': int, sum: int, n: int, q: int, spread: int, spread': int)
    returns (e: int)
    requires IsMean(m, sum, n) && IsMean(m', sum + x, n + 1)
    requires SpreadGrows(n, x, sum, spread, spread')
    ensures n * ((n + 1) * (q + (x - m) * (x - m')) - spread') == (n + 1) * (n * q - spread) + e
    ensures forall bound :: n <= sum <= n * bound && 1 <= x <= bound ==> -Slack(n, bound) <= e <= Slack(n, bound)
  {
    var u, r, r' := n * x - sum, sum - n * m, sum + x - (n + 1) * m';
    IncrementScaled(n, x - m, x - m', u + r, u + r');
    ErrorIdentity(n, q, (x - m) * (x - m'), spread, spread', u, r, r');
    e := u * (r + r') + r * r';
    forall bound | n <= sum <= n * bound && 1 <= x <= bound ensures -Slack(n, bound) <= e <= Slack(n, bound) {
      IncrementErrorBound(x, sum, n, bound, u, r, r');
    }
  }

  lemma IncrementScaled(n: int, a: int, b: int, p: int, q: int)
    requires n * a == p && (n + 1) * b == q
    ensures n * ((n + 1) * (a * b)) == p * q
  {
    calc {
      p * q;
      (n * a) * ((n + 1) * b);
      n * ((n + 1) * (a * b));
    }
  }

  lemma ErrorIdentity(n: int, q: int, inc: int, spread: int, spread': int, u: int, r: int, r': int)
    requires n * ((n + 1) * inc) == (u + r) * (u + r')
    requires n * spread' == (n + 1) * spread + u * u
    ensures n * ((n + 1) * (q + inc) - spread') == (n + 1) * (n * q - spread) + (u * (r + r') + r * r')
  {
    Distribute(n + 1, q, inc, 0);
    Distribute(n, (n + 1) * q, (n + 1) * inc, spread');
    Distribute(n + 1, n * q, 0, spread);
    Swap(n, n + 1, q);
    Expand(u, r, r');
  }

  lemma Distribute(n: int, a: int, b: int, c: int)
    ensures n * (a + b - c) == n * a + n * b - n * c
  {
  }

  lemma Swap(a: int, b: int, c: int)
    ensures a * (b * c) == b * (a * c)
  {
  }

  lemma Expand(u: int, r: int, r': int)
    ensures (u + r) * (u + r') == u * u + (u * (r + r') + r * r')
  {
  }

  lemma IncrementErrorBound(x: int, sum: int, n: int, bound: int, u: int, r: int, r': int)
    requires n >= 1 && n <= sum <= n * bound && 1 <= x <= bound && 0 <= r < n && 0 <= r' <= n
    requires u == n * x - sum
    ensures -Slack(n, bound) <= u * (r + r') + r * r' <= Slack(n, bound)
  {
    MulBetween(x, 0, bound, n);
    MulAbs(u, r + r', n * bound, 2 * n);
    MulAbs(r, r', n, n);
    SlackSplits(n, bound);
  }

  lemma SlackSplits(n: int, bound: int)
    ensures (n * bound) * (2 * n) + n * n == Slack(n, bound)
  {
  }

  lemma ErrorGrowth(n: int, bound: int, d: int, e: int, d': int)
    requires n >= 1 && bound >= 0 && n * d' == (n + 1) * d + e
    requires -Slack(n, bound) <= d <= Slack(n, bound) && -Slack(n, bound) <= e <= Slack(n, bound)
    ensures -Slack(n + 1, bound) <= d' <= Slack(n + 1, bound)
  {
    var b, c := Slack(n, bound), Slack(n + 1, bound);
    SlackGrowth(n, 2 * bound + 1);
    ErrorGrowthLinear(n, b, c, d, e, d');
  }

  lemma ErrorGrowthLinear(n: int, b: int, c: int, d: int, e: int, d': int)
    requires n >= 1 && n * d' == (n + 1) * d + e && b * (n + 1) + b <= n * c
    requires -b <= d <= b && -b <= e <= b
    ensures -c <= d' <= c
  {
    MulBetween(d, -b, b, n + 1);
    MulCancel(n, d', c);
    MulCancel(n, -c, d');
  }

  lemma SlackGrowth(n: int, k: int)
    requires n >= 1 && k >= 0
    ensures (n * n * k) * (n + 1) + n * n * k <= n * ((n + 1) * (n + 1) * k)
  {
    assert n * ((n + 1) * (n + 1) * k) == (n * n * k) * (n + 1) + n * n * k + n * k;
    MulBetween(k, 0, k, n);
  }

  // ----- one step -----

  lemma ExtendKeepsMoments(s: Stats, x: int, bound: int)
    requires AccurateMoments(s, bound) && |s.window| < s.size && 1 <= x <= bound
    ensures Accurate(Extended(s, x), bound)
    ensures Extended(s, x).sqrDiff >= s.sqrDiff
  {
    var n, t := |s.window|, Extended(s, x);
    SumBounds(s.window, bound);
    SumBounds(t.window, bound);
    SpreadStep(s.window, x);
    QuotientIsMean(t.sum, n + 1);
    MeanBetween(s.mean, s.sum, n, 1, bound);
    MeanBetween(t.mean, t.sum, n + 1, 1, bound);
    ExtendKeepsError(s.sqrDiff, t.sqrDiff, n, n + 1, bound, x, s.mean, t.mean, s.sum, Spread(s.window),
      Spread(t.window));
  }

  lemma ExtendKeepsError(q: int, q': int, n: int, n': int, bound: int, x: int, m: int, m': int, sum: int, spread: int,
                         spread': int)
    requires n' == n + 1 && q' == q + (x - m) * (x - m')
    requires IsMean(m, sum, n) && IsMean(m', sum + x, n') && n <= sum <= n * bound
    requires 1 <= m <= bound && 1 <= m' <= bound && 1 <= x <= bound
    requires 0 <= q <= n * (bound * bound) && -Slack(n, bound) <= n * q - spread <= Slack(n, bound)
    requires SpreadGrows(n, x, sum, spread, spread')
    ensures q <= q' <= n' * (bound * bound)
    ensures -Slack(n', bound) <= n' * q' - spread' <= Slack(n', bound)
  {
    assert q <= q' <= n' * (bound * bound) by {
      IncrementNonNegative(x, m, m', sum, n, bound);
      AddOne(n, bound * bound);
    }
    var e := IncrementError(x, m, m', sum, n, q, spread, spread');
    ErrorGrowth(n, bound, n * q - spread, e, n' * q' - spread');
  }

  lemma AddOne(n: int, k: int)
    ensures n * k + k == (n + 1) * k
  {
  }

  lemma PairSpread(a: int, b: int, m: int)
    ensures 2 * ((a - m) * (a - m) + (b - m) * (b - m)) - (2 * (a * a + b * b) - (a + b) * (a + b))
         == (a + b - 2 * m) * (a + b - 2 * m)
  {
  }

  lemma RestartAccurate(s: Stats, bound: int)
    requires s.size >= 3 && AccurateMoments(s, bound) && |s.window| == s.size
    ensures AccurateMoments(Restarted(s), bound) && |Restarted(s).window| == 2
  {
    var t := Restarted(s);
    var a, b := s.window[s.size - 2], s.window[s.size - 1];
    PairSums(a, b);
    var m := t.mean;
    QuotientIsMean(a + b, 2);
    PairSpread(a, b, m);
    SquareNonNegative(a - m);
    SquareNonNegative(b - m);
    MulAbs(a - m, a - m, bound, bound);
    MulAbs(b - m, b - m, bound, bound);
    MulAbs(a + b - 2 * m, a + b - 2 * m, 1, 1);
  }

  lemma PairSums(a: int, b: int)
    ensures Sum([a, b]) == a + b && Spread([a, b]) == 2 * (a * a + b * b) - (a + b) * (a + b)
  {
    assert [a, b][..1] == [a] && [a][..0] == [];
    assert Sum([a]) == a && SumSq([a]) == a * a;
  }

  /** Any update of an accurate state by a sample within the bound is accurate again, whether or
      not the window restarts. */
  lemma UpdateKeepsAccuracy(s: Stats, x: int, bound: int)
    requires s.size >= 3 && 1 <= x <= bound
    requires s == Initial(s.size) || Accurate(s, bound)
    ensures Accurate(Updated(s, x), bound)
  {
    if s == Initial(s.size) {
      FirstSampleIsAccurate(s, x, bound);
    } else {
      var s' := s.(lastRtt := x);
      if |s.window| == s.size { RestartAccurate(s', bound); }
      ExtendKeepsMoments(Restarted(s'), x, bound);
    }
  }

  lemma FirstSampleIsAccurate(s: Stats, x: int, bound: int)
    requires s.size >= 3 && 1 <= x <= bound && s == Initial(s.size)
    ensures Accurate(Updated(s, x), bound)
  {
    OneSample(x);
    MulBetween(bound, 1, bound, bound);
    assert Updated(s, x) == Stats(s.size, [x], x, x, 0, x, x, x, 0);
  }

  lemma OneSample(x: int)
    ensures Sum([x]) == x && SumSq([x]) == x * x && Spread([x]) == 0
  {
    assert [x][..0] == [];
  }

  // ----- whole runs -----

  function Least(xs: seq<int>): (m: int)
    requires xs != []
    ensures m in xs && forall i :: 0 <= i < |xs| ==> m <= xs[i]
  {
    if |xs| == 1 then xs[0]
    else var m := Least(xs[..|xs| - 1]); if m > xs[|xs| - 1] then xs[|xs| - 1] else m
  }

  function Greatest(xs: seq<int>): (m: int)
    requires xs != []
    ensures m in xs && forall i :: 0 <= i < |xs| ==> xs[i] <= m
  {
    if |xs| == 1 then xs[0]
    else var m := Greatest(xs[..|xs| - 1]); if m < xs[|xs| - 1] then xs[|xs| - 1] else m
  }

  /** How many samples the window holds after k updates: it fills up once, and from then on
      cycles between 3 and size. */
  function WindowLength(size: nat, k: nat): nat
    requires size >= 3
  {
    if k <= size then k else 3 + (k - size - 1) % (size - 2)
  }

  lemma WindowLengthStep(size: nat, k: nat)
    requires size >= 3
    ensures WindowLength(size, k + 1) == if WindowLength(size, k) == size then 3 else WindowLength(size, k) + 1
    ensures k > 0 ==> 1 <= WindowLength(size, k) <= size
  {
    if k > size {
      var p := size - 2;
      var j := k - size - 1;
      var q, r := j / p, j % p;
      assert j == q * p + r;
      if r == p - 1 {
        assert j + 1 == (q + 1) * p;
        QuotientUnique(j + 1, p, q + 1, 0);
      } else {
        QuotientUnique(j + 1, p, q, r + 1);
      }
    }
  }

  /** What an update does to the window and the extremes. */
  lemma UpdateShape(s: Stats, x: int)
    requires s.size >= 3 && |s.window| <= s.size
    ensures var t := Updated(s, x);
      && t.size == s.size && t.window == Kept(s.window, s.size) + [x] && t.lastRtt == x
      && t.minRtt == (if s.window == [] || s.minRtt == 0 || s.minRtt > x then x else s.minRtt)
      && t.maxRtt == (if s.window == [] || s.maxRtt < x then x else s.maxRtt)
  {
  }

  lemma {:induction false} RunAccurate(size: nat, samples: seq<int>, bound: int)
    requires size >= 3 && samples != [] && Bounded(samples, bound)
    ensures Accurate(Run(size, samples), bound)
  {
    var k := |samples| - 1;
    if k > 0 { RunAccurate(size, samples[..k], bound); }
    UpdateKeepsAccuracy(Run(size, samples[..k]), samples[k], bound);
  }

  /** `s` is what a run of `samples` should leave behind, apart from the moments. */
  ghost predicate Remembers(s: Stats, samples: seq<int>) {
    && s.size >= 3
    && samples != []
    && 1 <= |s.window| <= s.size
    && IsTail(s.window, samples)
    && s.lastRtt == samples[|samples| - 1]
    && s.minRtt == Least(samples) && s.maxRtt == Greatest(samples)
  }

  ghost predicate IsTail(window: seq<int>, samples: seq<int>) {
    |window| <= |samples| && window == samples[|samples| - |window|..]
  }

  function Kept(window: seq<int>, size: nat): seq<int>
    requires size >= 3
  {
    if |window| == size then window[size - 2..] else window
  }

  lemma UpdateRemembers(s: Stats, before: seq<int>, x: int)
    requires Remembers(s, before) && s.minRtt > 0
    ensures Remembers(Updated(s, x), before + [x])
  {
    UpdateShape(s, x);
    NextRemembers(s, Updated(s, x), before, x);
  }

  lemma NextRemembers(s: Stats, t: Stats, before: seq<int>, x: int)
    requires Remembers(s, before) && s.minRtt > 0 && t.size == s.size && t.lastRtt == x
    requires t.window == Kept(s.window, s.size) + [x]
    requires t.minRtt == (if s.minRtt > x then x else s.minRtt) && t.maxRtt == (if s.maxRtt < x then x else s.maxRtt)
    ensures Remembers(t, before + [x])
  {
    ExtremesSnoc(before, x);
    WindowSnoc(s.window, before, x, s.size);
    StepRemembers(s, t, before, before + [x], x);
  }

  lemma StepRemembers(s: Stats, t: Stats, before: seq<int>, after: seq<int>, x: int)
    requires Remembers(s, before) && after == before + [x] && t.size == s.size && t.lastRtt == x
    requires t.window == Kept(s.window, s.size) + [x] && IsTail(t.window, after)
    requires t.minRtt == Least(after) && t.maxRtt == Greatest(after)
    ensures Remembers(t, after)
  {
  }

  lemma ExtremesSnoc(before: seq<int>, x: int)
    requires before != []
    ensures Least(before + [x]) == if Least(before) > x then x else Least(before)
    ensures Greatest(before + [x]) == if Greatest(before) < x then x else Greatest(before)
  {
    assert (before + [x])[..|before|] == before;
  }

  /** What a sample leaves in the window is the end of the samples again. */
  lemma WindowSnoc(window: seq<int>, before: seq<int>, x: int, size: nat)
    requires size >= 3 && IsTail(window, before) && |window| <= size
    ensures IsTail(Kept(window, size) + [x], before + [x])
  {
  }

  lemma {:induction false} RunLength(size: nat, samples: seq<int>)
    requires size >= 3
    ensures |Run(size, samples).window| == WindowLength(size, |samples|) <= size
  {
    if samples != [] {
      var k := |samples| - 1;
      RunLength(size, samples[..k]);
      UpdateShape(Run(size, samples[..k]), samples[k]);
      WindowLengthStep(size, k);
    }
  }

  lemma {:induction false} RunWindow(size: nat, samples: seq<int>)
    requires size >= 3 && samples != [] && forall i :: 0 <= i < |samples| ==> samples[i] >= 1
    ensures Remembers(Run(size, samples), samples)
  {
    var k := |samples| - 1;
    var before, x := samples[..k], samples[k];
    assert samples == before + [x];
    if before == [] {
      UpdateShape(Initial(size), x);
    } else {
      RunWindow(size, before);
      UpdateRemembers(Run(size, before), before, x);
    }
  }

  /** After every non-empty run of positive samples the window is exactly the newest
      WindowLength samples, the statistics describe that window within the slack, and the extremes
      are those of the whole run. */
  lemma RunMeetsContract(size: nat, samples: seq<int>, bound: int)
    requires size >= 3 && samples != [] && Bounded(samples, bound)
    ensures Accurate(Run(size, samples), bound) && Remembers(Run(size, samples), samples)
    ensures |Run(size, samples).window| == WindowLength(size, |samples|)
  {
    RunLength(size, samples);
    RunAccurate(size, samples, bound);
    RunWindow(size, samples);
  }

  /** Minimum, mean and window entries are ordered as their names say, after every run. */
  lemma ExtremesBracketWindow(size: nat, samples: seq<int>, bound: int)
    requires size >= 3 && samples != [] && Bounded(samples, bound)
    ensures var s := Run(size, samples);
      && s.minRtt <= s.mean <= s.maxRtt
      && forall i :: 0 <= i < |s.window| ==> s.minRtt <= s.window[i] <= s.maxRtt
  {
    RunMeetsContract(size, samples, bound);
    ExtremesBracket(Run(size, samples), samples, bound);
  }

  lemma ExtremesBracket(s: Stats, samples: seq<int>, bound: int)
    requires Accurate(s, bound) && Remembers(s, samples)
    ensures s.minRtt <= s.mean <= s.maxRtt
    ensures forall i :: 0 <= i < |s.window| ==> s.minRtt <= s.window[i] <= s.maxRtt
  {
    var n := |s.window|;
    forall i | 0 <= i < n ensures s.minRtt <= s.window[i] <= s.maxRtt {
      assert s.window[i] == samples[|samples| - n + i];
    }
    SumBetween(s.window, s.minRtt, s.maxRtt);
    MeanBetween(s.mean, s.sum, n, s.minRtt, s.maxRtt);
  }

  lemma {:induction false} SumBetween(w: seq<int>, lo: int, hi: int)
    requires forall i :: 0 <= i < |w| ==> lo <= w[i] <= hi
    ensures |w| * lo <= Sum(w) <= |w| * hi
  {
    if w != [] {
      SumBetween(w[..|w| - 1], lo, hi);
      AddOne(|w| - 1, lo);
      AddOne(|w| - 1, hi);
    }
  }

  /** The values formed by the arithmetic of one update. */
  ghost predicate ExtendFitsInt64(s: Stats, x: int, bound: int) {
    var t := Extended(s, x);
    && t.sum == s.sum + x && t.sqrDiff == s.sqrDiff + (x - s.mean) * (x - t.mean)
    && 0 <= s.sum <= t.sum < 0x8000_0000_0000_0000
    && 0 <= s.sqrDiff <= t.sqrDiff < 0x8000_0000_0000_0000
    && 0 <= (x - s.mean) * (x - t.mean) < 0x8000_0000_0000_0000
    && 0 <= t.stdDev <= bound
  }

  /** When size * bound^2 < 2^63 no int64 the source stores or forms on the way can overflow: the
      sums, the increment of the recurrence, and the squared deviations. */
  lemma NoOverflow(size: nat, samples: seq<int>, x: int, bound: int)
    requires size >= 3 && samples != [] && Bounded(samples, bound) && 1 <= x <= bound
    requires size * (bound * bound) < 0x8000_0000_0000_0000
    ensures ExtendFitsInt64(Restarted(Run(size, samples)), x, bound)
  {
    RunAccurate(size, samples, bound);
    var r := Run(size, samples);
    if |r.window| == size { RestartAccurate(r, bound); }
    ExtendFits(Restarted(r), x, bound);
  }

  lemma ExtendFits(s: Stats, x: int, bound: int)
    requires AccurateMoments(s, bound) && |s.window| < s.size && 1 <= x <= bound
    requires s.size * (bound * bound) < 0x8000_0000_0000_0000
    ensures ExtendFitsInt64(s, x, bound)
  {
    var n, t := |s.window| + 1, Extended(s, x);
    ExtendKeepsMoments(s, x, bound);
    SumBounds(s.window, bound);
    SumBounds(t.window, bound);
    QuotientIsMean(t.sqrDiff, n);
    FieldsFit(s.size, n, bound, t.sum, s.sqrDiff, t.sqrDiff, (x - s.mean) * (x - t.mean), TruncDiv(t.sqrDiff, n),
      t.stdDev);
  }

  lemma FieldsFit(size: int, n: int, bound: int, sum: int, q: int, q': int, inc: int, variance: int, stdDev: int)
    requires 2 <= n <= size && bound >= 1 && size * (bound * bound) < 0x8000_0000_0000_0000
    requires sum <= n * bound && 0 <= q <= q' <= n * (bound * bound) && q' == q + inc
    requires n * variance <= q' && stdDev >= 0 && stdDev * stdDev <= variance
    ensures sum < 0x8000_0000_0000_0000 && q' < 0x8000_0000_0000_0000 && inc < 0x8000_0000_0000_0000
    ensures stdDev <= bound
  {
    ScaledLe(1, bound, bound, bound);
    ScaledLe(n, size, bound, bound * bound);
    ScaledLe(n, size, bound * bound, bound * bound);
    MulCancel(n, variance, bound * bound);
    if stdDev > bound { ScaledLe(bound + 1, stdDev, bound + 1, stdDev); }
  }

  lemma ScaledLe(a: int, b: int, x: int, y: int)
    requires 0 <= a <= b && 0 <= x <= y
    ensures a * x <= b * y
  {
    MulBetween(x, 0, y, a);
    MulBetween(a, 0, b, y);
  }
}
