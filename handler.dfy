/// do_POST: route a request's method name to its handler; any other name
/// yields an "Unknown method" error object.
module Handler {
  import opened Common
  import opened Krx
  import MarketData
  import Financials
  import Technical
  import SupplyDemand
  import Peers

  /// The decoded request body: `method` key (possibly absent) and `params.ticker`.
  datatype Request = Request(methodName: Option<string>, ticker: string)

  /// The successful response bodies, one per handler.
  datatype Body =
    | QuoteBody(quote: MarketData.Quote)
    | FinancialBody(fundamentals: Financials.Fundamentals)
    | TechnicalBody(indicators: Technical.Indicators)
    | FlowBody(summary: SupplyDemand.FlowSummary)
    | PeersBody(report: Peers.PeerReport)

  /// The JSON object sent back: a handler's body or an error object.
  datatype Reply = Done(body: Body) | Failed(error: Error)

  /// The method names the endpoint serves.
  const KNOWN_METHODS: set<string> :=
    {"getMarketData", "getFinancialData", "getTechnicalIndicators", "getSupplyDemand", "searchPeers"}

  /// A handler's result as a reply: its record, or its error object.
  function Lift<T>(r: Result<T>, wrap: T -> Body): (reply: Reply)
    ensures r.Ok? ==> reply == Done(wrap(r.value))
    ensures r.Err? ==> reply == Failed(r.error)
  {
    match r
    case Ok(v) => Done(wrap(v))
    case Err(e) => Failed(e)
  }

  /// The value under the response's `error` key, if it has one.
  function ErrorField(reply: Reply): (text: Option<string>)
    ensures text.Some? <==> reply.Failed?
    ensures reply.Failed? ==> text == Some(Message(reply.error))
  {
    match reply
    case Done(_) => None
    case Failed(e) => Some(Message(e))
  }

  /// The request method is one of the five served names.
  predicate Known(m: Option<string>)
  {
    m.Some? && m.value in KNOWN_METHODS
  }

  method HandlePost(req: Request, x: Exchange, today: Day) returns (reply: Reply)
    ensures req.methodName == Some("getMarketData") ==>
      reply == Lift(MarketData.MarketDataOf(x, req.ticker, today), q => QuoteBody(q))
    ensures req.methodName == Some("getFinancialData") ==>
      reply == Lift(Financials.FinancialData(x.fundamentals(today), req.ticker), f => FinancialBody(f))
    ensures req.methodName == Some("getTechnicalIndicators") ==>
      reply == Lift(Technical.TechnicalIndicators(
                      Technical.Closes(x.ohlcv(req.ticker, today - Technical.HISTORY_DAYS, today))),
                    t => TechnicalBody(t))
    ensures req.methodName == Some("getSupplyDemand") ==>
      reply == Lift(SupplyDemand.SupplyDemand(
                      x.tradingValue(req.ticker, today - SupplyDemand.WINDOW_DAYS, today), today),
                    s => FlowBody(s))
    ensures req.methodName == Some("searchPeers") ==>
      reply == Lift(Peers.PeerSearch(x.marketCaps(today), req.ticker, x.names), p => PeersBody(p))
    ensures reply == Failed(UnknownMethod(req.methodName)) <==> !Known(req.methodName)
    ensures req.methodName == Some("getMarketData") && reply.Failed? ==>
      ErrorField(reply) == Some("No data for ticker " + req.ticker)
    ensures req.methodName == Some("getFinancialData") && reply.Failed? ==>
      ErrorField(reply) == Some("No fundamental data for " + req.ticker)
    ensures req.methodName == Some("getTechnicalIndicators") && reply.Failed? ==>
      ErrorField(reply) == Some("Not enough data for technical analysis")
    ensures req.methodName == Some("getSupplyDemand") && reply.Failed? ==>
      ErrorField(reply) == Some("No investor data available")
    ensures req.methodName == Some("searchPeers") && reply.Failed? ==>
      ErrorField(reply) == Some("Ticker " + req.ticker + " not found")
    ensures !Known(req.methodName) ==> ErrorField(reply) == Some("Unknown method: " + Shown(req.methodName))
  {
    var ticker := req.ticker;
    match req.methodName
    case Some("getMarketData") =>
      var r := MarketData.GetMarketData(x, ticker, today);
      reply := Lift(r, q => QuoteBody(q));
    case Some("getFinancialData") =>
      reply := Lift(Financials.FinancialData(x.fundamentals(today), ticker), f => FinancialBody(f));
    case Some("getTechnicalIndicators") =>
      var bars := x.ohlcv(ticker, today - Technical.HISTORY_DAYS, today);
      reply := Lift(Technical.TechnicalIndicators(Technical.Closes(bars)), t => TechnicalBody(t));
    case Some("getSupplyDemand") =>
      var rows := x.tradingValue(ticker, today - SupplyDemand.WINDOW_DAYS, today);
      reply := Lift(SupplyDemand.SupplyDemand(rows, today), s => FlowBody(s));
    case Some("searchPeers") =>
      var r := Peers.SearchPeers(x.marketCaps(today), ticker, x.names);
      reply := Lift(r, p => PeersBody(p));
    case _ =>
      reply := Failed(UnknownMethod(req.methodName));
  }
}
