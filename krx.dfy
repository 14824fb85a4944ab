/// The shapes of the tables the exchange data library returns, and the
/// data sources themselves as an abstract record of functions.
module Krx {
  import opened Common

  /// One daily OHLCV row (시가, 고가, 저가, 종가, 거래량).
  datatype Bar = Bar(open: int, high: int, low: int, close: int, volume: int)

  /// One row of the market-capitalisation table: the ticker (the table's
  /// index) and its market capitalisation in won (시가총액).
  datatype CapRow = CapRow(ticker: string, cap: int)

  /// No ticker labels two rows.
  predicate UniqueTickers(rows: seq<CapRow>)
  {
    forall i, j :: 0 <= i < j < |rows| ==> rows[i].ticker != rows[j].ticker
  }

  /// The market-cap table, indexed by ticker.
  type CapTable = rows: seq<CapRow> | UniqueTickers(rows) witness []

  /// One row of the fundamentals table: PER, PBR, EPS, BPS, DIV, DPS.
  datatype FundRow = FundRow(per: real, pbr: real, eps: real, bps: real, div: real, dps: real)

  /// One row of the per-investor trading-value table: net traded value of
  /// foreign investors (외국인합계), institutions (기관합계) and individuals (개인).
  datatype FlowRow = FlowRow(foreign: int, institution: int, individual: int)

  /// The exchange data sources the handlers query.
  datatype Exchange = Exchange(
    /// OHLCV rows of a ticker between two days, inclusive, oldest first.
    ohlcv: (string, Day, Day) -> seq<Bar>,
    /// The market-cap table of a day.
    marketCaps: Day -> CapTable,
    /// The fundamentals table of a day, for all markets.
    fundamentals: Day -> map<string, FundRow>,
    /// Per-investor trading values of a ticker between two days, oldest first.
    tradingValue: (string, Day, Day) -> seq<FlowRow>,
    /// Ticker names; a ticker absent here is one whose name lookup fails.
    names: map<string, string>)

  /// `ticker in table.index`.
  predicate Listed(table: seq<CapRow>, ticker: string)
  {
    exists i :: 0 <= i < |table| && table[i].ticker == ticker
  }

  /// The capitalisation recorded for `ticker`, or 0 when it is not listed.
  function CapOf(table: seq<CapRow>, ticker: string): (c: int)
    ensures !Listed(table, ticker) ==> c == 0
    ensures UniqueTickers(table) ==>
      forall i :: 0 <= i < |table| && table[i].ticker == ticker ==> c == table[i].cap
  {
    if table == [] then 0
    else if table[0].ticker == ticker then table[0].cap
    else
      assert forall i :: 0 <= i < |table| - 1 ==> table[1..][i] == table[i + 1];
      CapOf(table[1..], ticker)
  }
}
