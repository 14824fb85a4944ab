/// get_market_data: find the most recent trading day within a week, then
/// report that day's first OHLCV row and the ticker's market cap.
module MarketData {
  import opened Common
  import opened Krx

  /// How many days, today included, the lookback inspects.
  const LOOKBACK_DAYS: nat := 7

  /// The quote the handler returns.
  datatype Quote = Quote(
    currentPrice: int, volume: int, open: int, high: int, low: int,
    marketCap: int, date: Day)

  /// The exchange has at least one OHLCV row for `ticker` on day `d`.
  predicate Traded(x: Exchange, ticker: string, d: Day)
  {
    x.ohlcv(ticker, d, d) != []
  }

  /// No day in the half-open interval (lo, hi] has data.
  ghost predicate QuietAfter(x: Exchange, ticker: string, lo: Day, hi: Day)
  {
    forall d :: lo < d <= hi ==> !Traded(x, ticker, d)
  }

  /// What the lookback promises: either `d` is the latest day of the last
  /// seven with data, or no such day exists and `d` is today.
  ghost predicate IsLookbackDay(x: Exchange, ticker: string, today: Day, d: Day)
  {
    || (today - LOOKBACK_DAYS < d <= today && Traded(x, ticker, d) && QuietAfter(x, ticker, d, today))
    || (d == today && QuietAfter(x, ticker, today - LOOKBACK_DAYS, today))
  }

  /// Reference definition of the scan: offsets i, i+1, ..., 6 in turn.
  function ScanFrom(x: Exchange, ticker: string, today: Day, i: nat): Day
    requires i <= LOOKBACK_DAYS
    decreases LOOKBACK_DAYS - i
  {
    if i == LOOKBACK_DAYS then today
    else if Traded(x, ticker, today - i) then today - i
    else ScanFrom(x, ticker, today, i + 1)
  }

  /// The day the lookback settles on.
  function LatestTradingDay(x: Exchange, ticker: string, today: Day): Day
  {
    ScanFrom(x, ticker, today, 0)
  }

  lemma {:induction false} ScanFromIsLookbackDay(x: Exchange, ticker: string, today: Day, i: nat)
    requires i <= LOOKBACK_DAYS
    requires QuietAfter(x, ticker, today - i, today)
    ensures IsLookbackDay(x, ticker, today, ScanFrom(x, ticker, today, i))
    decreases LOOKBACK_DAYS - i
  {
    if i < LOOKBACK_DAYS && !Traded(x, ticker, today - i) {
      ScanFromIsLookbackDay(x, ticker, today, i + 1);
    }
  }

  /// The lookback day is exactly the one the source's loop promises.
  lemma LatestTradingDayIsLookbackDay(x: Exchange, ticker: string, today: Day)
    ensures IsLookbackDay(x, ticker, today, LatestTradingDay(x, ticker, today))
  {
    ScanFromIsLookbackDay(x, ticker, today, 0);
  }

  /// The `for ... else` loop over the last seven days, with its early break.
  method FindTradingDay(x: Exchange, ticker: string, today: Day) returns (day: Day)
    ensures day == LatestTradingDay(x, ticker, today)
    ensures IsLookbackDay(x, ticker, today, day)
  {
    var found := false;
    day := today;
    for i := 0 to LOOKBACK_DAYS
      invariant !found
      invariant QuietAfter(x, ticker, today - i, today)
      invariant ScanFrom(x, ticker, today, i) == LatestTradingDay(x, ticker, today)
    {
      var checkDate := today - i;
      if x.ohlcv(ticker, checkDate, checkDate) != [] {
        day := checkDate;
        found := true;
        break;
      }
    }
    if !found {
      day := today;
    }
    LatestTradingDayIsLookbackDay(x, ticker, today);
  }

  /// Reference definition of the handler's result.
  function MarketDataOf(x: Exchange, ticker: string, today: Day): (r: Result<Quote>)
    ensures r.Err? ==> r.error == NoData(ticker)
  {
    var d := LatestTradingDay(x, ticker, today);
    var bars := x.ohlcv(ticker, d, d);
    if bars == [] then Err(NoData(ticker))
    else
      var b := bars[0];
      Ok(Quote(b.close, b.volume, b.open, b.high, b.low, CapOf(x.marketCaps(d), ticker), d))
  }

  /// The handler: look back for a trading day, re-query that day, and build
  /// the quote. It is a method because the lookback is a loop; `MarketDataOf`
  /// is the same computation as a function, for contracts and lemmas to use.
  method GetMarketData(x: Exchange, ticker: string, today: Day) returns (r: Result<Quote>)
    ensures r == MarketDataOf(x, ticker, today)
  {
    var endDay := FindTradingDay(x, ticker, today);
    var bars := x.ohlcv(ticker, endDay, endDay);
    if bars == [] {
      return Err(NoData(ticker));
    }
    var cap := x.marketCaps(endDay);
    var marketCap := if Listed(cap, ticker) then CapOf(cap, ticker) else 0;
    var b := bars[0];
    r := Ok(Quote(b.close, b.volume, b.open, b.high, b.low, marketCap, endDay));
  }

  /// The handler fails exactly when none of the last seven days has data
  /// (the fallback to today then finds nothing either); otherwise it reports
  /// the latest such day, that day's first row and the ticker's cap (0 if the
  /// cap table does not list it).
  lemma MarketDataLookback(x: Exchange, ticker: string, today: Day)
    ensures MarketDataOf(x, ticker, today).Err? <==> QuietAfter(x, ticker, today - LOOKBACK_DAYS, today)
    ensures MarketDataOf(x, ticker, today).Ok? ==>
      var q := MarketDataOf(x, ticker, today).value;
      && today - LOOKBACK_DAYS < q.date <= today
      && Traded(x, ticker, q.date)
      && QuietAfter(x, ticker, q.date, today)
      && q.currentPrice == x.ohlcv(ticker, q.date, q.date)[0].close
      && q.volume == x.ohlcv(ticker, q.date, q.date)[0].volume
      && q.open == x.ohlcv(ticker, q.date, q.date)[0].open
      && q.high == x.ohlcv(ticker, q.date, q.date)[0].high
      && q.low == x.ohlcv(ticker, q.date, q.date)[0].low
      && (Listed(x.marketCaps(q.date), ticker) ==>
            forall i :: 0 <= i < |x.marketCaps(q.date)| && x.marketCaps(q.date)[i].ticker == ticker ==>
              q.marketCap == x.marketCaps(q.date)[i].cap)
      && (!Listed(x.marketCaps(q.date), ticker) ==> q.marketCap == 0)
  {
    LatestTradingDayIsLookbackDay(x, ticker, today);
    var d := LatestTradingDay(x, ticker, today);
    if QuietAfter(x, ticker, today - LOOKBACK_DAYS, today) {
      assert !Traded(x, ticker, d);
    }
  }
}
