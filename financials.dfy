/// get_financial_data: the fundamentals of one ticker, with every ratio that
/// is not strictly positive replaced by null.
module Financials {
  import opened Common
  import opened Krx

  /// The normalised fundamentals the handler returns.
  datatype Fundamentals = Fundamentals(
    ticker: string,
    per: Option<real>, pbr: Option<real>, eps: Option<real>,
    bps: Option<real>, div: Option<real>, dps: Option<real>)

  /// `out` is what the source keeps of the raw value `v`: v itself when it is
  /// positive, null otherwise.
  predicate Kept(v: real, out: Option<real>)
  {
    (out.Some? <==> v > 0.0) && (out.Some? ==> out.value == v)
  }

  /// Every field of `f` is the kept form of the matching field of `row`.
  predicate NormalisedFrom(row: FundRow, f: Fundamentals)
  {
    && Kept(row.per, f.per) && Kept(row.pbr, f.pbr) && Kept(row.eps, f.eps)
    && Kept(row.bps, f.bps) && Kept(row.div, f.div) && Kept(row.dps, f.dps)
  }

  /// A present value is strictly positive.
  predicate PositiveOrNull(o: Option<real>)
  {
    o.Some? ==> o.value > 0.0
  }

  predicate AllPositiveOrNull(f: Fundamentals)
  {
    && PositiveOrNull(f.per) && PositiveOrNull(f.pbr) && PositiveOrNull(f.eps)
    && PositiveOrNull(f.bps) && PositiveOrNull(f.div) && PositiveOrNull(f.dps)
  }

  /// `float(v) if v > 0 else None`.
  function KeepPositive(v: real): (r: Option<real>)
    ensures Kept(v, r)
  {
    if v > 0.0 then Some(v) else None
  }

  /// The handler, given the day's fundamentals table.
  function FinancialData(table: map<string, FundRow>, ticker: string): (r: Result<Fundamentals>)
    ensures r.Err? <==> ticker !in table
    ensures r.Err? ==> r.error == NoFundamentalData(ticker)
    ensures r.Ok? ==> r.value.ticker == ticker && NormalisedFrom(table[ticker], r.value)
    ensures r.Ok? ==> AllPositiveOrNull(r.value)
  {
    if ticker !in table then Err(NoFundamentalData(ticker))
    else
      var fund := table[ticker];
      Ok(Fundamentals(ticker,
        KeepPositive(fund.per), KeepPositive(fund.pbr), KeepPositive(fund.eps),
        KeepPositive(fund.bps), KeepPositive(fund.div), KeepPositive(fund.dps)))
  }

  /// Reads a null back as 0.
  function OrZero(o: Option<real>): real
  {
    if o.Some? then o.value else 0.0
  }

  /// The raw row whose positive fields are those of `f` and whose other fields are 0.
  function Denormalise(f: Fundamentals): FundRow
  {
    FundRow(OrZero(f.per), OrZero(f.pbr), OrZero(f.eps), OrZero(f.bps), OrZero(f.div), OrZero(f.dps))
  }

  /// Normalisation is idempotent: feeding a normalised record back in, with
  /// nulls read as 0, reproduces it unchanged.
  lemma NormaliseIdempotent(table: map<string, FundRow>, ticker: string)
    requires ticker in table
    ensures var f := FinancialData(table, ticker).value;
      FinancialData(map[ticker := Denormalise(f)], ticker) == Ok(f)
  {
    var f := FinancialData(table, ticker).value;
    var g := FinancialData(map[ticker := Denormalise(f)], ticker).value;
    assert NormalisedFrom(Denormalise(f), g);
    assert g.per == f.per && g.pbr == f.pbr && g.eps == f.eps;
    assert g.bps == f.bps && g.div == f.div && g.dps == f.dps;
  }
}
