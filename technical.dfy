/// get_technical_indicators, as far as it is integer arithmetic: the
/// 20-bar guard, the 5/20/60-day moving averages and the current price.
module Technical {
  import opened Common
  import opened Krx

  /// The handler refuses fewer bars than this.
  const MIN_BARS: nat := 20
  /// The price history requested, in calendar days before today.
  const HISTORY_DAYS: nat := 100

  /// The integer part of the indicators the handler returns.
  datatype Indicators = Indicators(ma5: int, ma20: int, ma60: int, currentPrice: int)

  function Sum(s: seq<int>): int
  {
    if s == [] then 0 else Sum(s[..|s| - 1]) + s[|s| - 1]
  }

  function Min(s: seq<int>): int
    requires s != []
  {
    if |s| == 1 then s[0]
    else var m := Min(s[..|s| - 1]); if s[|s| - 1] < m then s[|s| - 1] else m
  }

  function Max(s: seq<int>): int
    requires s != []
  {
    if |s| == 1 then s[0]
    else var m := Max(s[..|s| - 1]); if s[|s| - 1] > m then s[|s| - 1] else m
  }

  /// Python's `int()` of a quotient: division truncating toward zero.
  function TruncDiv(a: int, n: int): int
    requires n > 0
  {
    if a >= 0 then a / n else -((-a) / n)
  }

  lemma MulMono(k: nat, a: int, b: int)
    requires a <= b
    ensures k * a <= k * b
  {
    assert k * b - k * a == k * (b - a);
  }

  lemma MulSucc(k: nat, m: int)
    requires k > 0
    ensures k * m == (k - 1) * m + m
  {
  }

  lemma {:induction false} SumBounds(s: seq<int>)
    requires s != []
    ensures |s| * Min(s) <= Sum(s) <= |s| * Max(s)
  {
    if |s| > 1 {
      var init := s[..|s| - 1];
      var n := |s| - 1;
      var lo, hi := Min(s), Max(s);
      assert Sum(s) == Sum(init) + s[n];
      assert lo <= Min(init) && lo <= s[n];
      assert Max(init) <= hi && s[n] <= hi;
      SumBounds(init);
      MulMono(n, lo, Min(init));
      MulMono(n, Max(init), hi);
      MulSucc(|s|, lo);
      MulSucc(|s|, hi);
    }
  }

  /// Euclidean division by a positive divisor keeps bounds that hold of the multiple.
  lemma FloorDivBounds(a: int, n: int, lo: int, hi: int)
    requires n > 0 && n * lo <= a <= n * hi
    ensures lo <= a / n <= hi
  {
    var q, r := a / n, a % n;
    assert a == n * q + r && 0 <= r < n;
    if q < lo {
      MulMono(n, q, lo - 1);
      assert false;
    }
    if q > hi {
      MulMono(n, hi + 1, q);
      assert false;
    }
  }

  lemma TruncDivBounds(a: int, n: int, lo: int, hi: int)
    requires n > 0 && n * lo <= a <= n * hi
    ensures lo <= TruncDiv(a, n) <= hi
  {
    if a >= 0 {
      FloorDivBounds(a, n, lo, hi);
    } else {
      assert n * -hi == -(n * hi) && n * -lo == -(n * lo);
      FloorDivBounds(-a, n, -hi, -lo);
    }
  }

  /// `int(window.mean())`: the mean, truncated toward zero, which always lies
  /// between the window's least and greatest price.
  function Mean(window: seq<int>): (m: int)
    requires window != []
    ensures Min(window) <= m <= Max(window)
  {
    SumBounds(window);
    TruncDivBounds(Sum(window), |window|, Min(window), Max(window));
    TruncDiv(Sum(window), |window|)
  }

  /// The last `k` elements (`closes[-k:]`).
  function LastN(s: seq<int>, k: nat): seq<int>
    requires k <= |s|
  {
    s[|s| - k..]
  }

  /// Closing prices (종가) of the bars, oldest first.
  function Closes(bars: seq<Bar>): (c: seq<int>)
    ensures |c| == |bars| && forall i :: 0 <= i < |bars| ==> c[i] == bars[i].close
  {
    seq(|bars|, i requires 0 <= i < |bars| => bars[i].close)
  }

  /// The moving average over the last k closes, or the last close when there are fewer.
  function MovingAverage(closes: seq<int>, k: nat): (m: int)
    requires closes != [] && k > 0
    ensures k <= |closes| ==> Min(LastN(closes, k)) <= m <= Max(LastN(closes, k))
    ensures k > |closes| ==> m == closes[|closes| - 1]
  {
    if |closes| >= k then Mean(LastN(closes, k)) else closes[|closes| - 1]
  }

  /// The handler, given the closes of the last hundred days.
  function TechnicalIndicators(closes: seq<int>): (r: Result<Indicators>)
    ensures r.Err? <==> |closes| < MIN_BARS
    ensures r.Err? ==> r.error == NotEnoughData
    ensures r.Ok? ==>
      && r.value.currentPrice == closes[|closes| - 1]
      && Min(LastN(closes, 5)) <= r.value.ma5 <= Max(LastN(closes, 5))
      && Min(LastN(closes, 20)) <= r.value.ma20 <= Max(LastN(closes, 20))
      && (|closes| >= 60 ==> Min(LastN(closes, 60)) <= r.value.ma60 <= Max(LastN(closes, 60)))
      && (|closes| < 60 ==> r.value.ma60 == r.value.currentPrice)
  {
    if |closes| < MIN_BARS then Err(NotEnoughData)
    else
      Ok(Indicators(
        MovingAverage(closes, 5), MovingAverage(closes, 20), MovingAverage(closes, 60),
        closes[|closes| - 1]))
  }
}
