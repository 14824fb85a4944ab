/// Shared vocabulary of the stock-data endpoint: optional values, the error
/// objects the handlers return, and the result type that carries them.
module Common {

  /// A calendar day, counted from an arbitrary epoch; "i days before today"
  /// is `today - i`.
  type Day = int

  /// A value that may be absent (Python's None).
  datatype Option<+T> = None | Some(value: T)

  /// The error objects (`{'error': ...}`) the handlers and the dispatcher
  /// produce on their documented failure paths.
  datatype Error =
    | NoData(ticker: string)              // get_market_data: no OHLCV row
    | NoFundamentalData(ticker: string)   // get_financial_data: ticker not in the table
    | NotEnoughData                       // get_technical_indicators: fewer than 20 bars
    | NoInvestorData                      // get_supply_demand: empty trading-value table
    | TickerNotFound(ticker: string)      // search_peers: ticker not in the cap table
    | UnknownMethod(name: Option<string>) // do_POST: method name not recognised

  /// A handler's outcome: the response record or an error object.
  datatype Result<+T> = Ok(value: T) | Err(error: Error)

  /// The text placed under the `error` key of the response.
  function Message(e: Error): string
  {
    match e
    case NoData(t) => "No data for ticker " + t
    case NoFundamentalData(t) => "No fundamental data for " + t
    case NotEnoughData => "Not enough data for technical analysis"
    case NoInvestorData => "No investor data available"
    case TickerNotFound(t) => "Ticker " + t + " not found"
    case UnknownMethod(m) => "Unknown method: " + Shown(m)
  }

  /// An optional name as a Python f-string shows it.
  function Shown(m: Option<string>): string
  {
    match m
    case Some(name) => name
    case None => "None"
  }
}
