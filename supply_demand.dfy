/// get_supply_demand: net traded value per investor class, summed over the
/// whole twenty-day window and over its last five rows.
module SupplyDemand {
  import opened Common
  import opened Krx

  /// The window requested, in calendar days before today.
  const WINDOW_DAYS: nat := 20
  /// How many trailing rows make up the short window (`tail(5)`).
  const RECENT_ROWS: nat := 5

  /// Net amounts of the three investor classes.
  datatype NetFlow = NetFlow(foreignNet: int, institutionNet: int, individualNet: int)

  /// The handler's response: whole-window sums, last-five-row sums and the period.
  datatype FlowSummary = FlowSummary(recent: NetFlow, fiveDays: NetFlow, periodStart: Day, periodEnd: Day)

  const ZERO := NetFlow(0, 0, 0)

  function Plus(a: NetFlow, b: NetFlow): NetFlow
  {
    NetFlow(a.foreignNet + b.foreignNet, a.institutionNet + b.institutionNet, a.individualNet + b.individualNet)
  }

  /// Column sums of the three classes over the rows.
  function NetSum(rows: seq<FlowRow>): NetFlow
  {
    if rows == [] then ZERO
    else
      var r := rows[|rows| - 1];
      Plus(NetSum(rows[..|rows| - 1]), NetFlow(r.foreign, r.institution, r.individual))
  }

  /// Summing is additive over concatenation.
  lemma {:induction false} NetSumAppend(a: seq<FlowRow>, b: seq<FlowRow>)
    ensures NetSum(a + b) == Plus(NetSum(a), NetSum(b))
    decreases |b|
  {
    if b == [] {
      assert a + b == a;
    } else {
      assert (a + b)[..|a + b| - 1] == a + b[..|b| - 1];
      NetSumAppend(a, b[..|b| - 1]);
    }
  }

  /// `rows.tail(k)`: the last min(k, |rows|) rows.
  function Tail(rows: seq<FlowRow>, k: nat): (t: seq<FlowRow>)
    ensures |t| == if |rows| < k then |rows| else k
    ensures rows == rows[..|rows| - |t|] + t
  {
    if |rows| <= k then rows else rows[|rows| - k..]
  }

  /// The handler, given the rows of the window (today - 20 .. today).
  function SupplyDemand(rows: seq<FlowRow>, today: Day): (r: Result<FlowSummary>)
    ensures r.Err? <==> rows == []
    ensures r.Err? ==> r.error == NoInvestorData
    ensures r.Ok? ==>
      && r.value.recent == NetSum(rows)
      && r.value.fiveDays == NetSum(Tail(rows, RECENT_ROWS))
      && r.value.periodStart == today - WINDOW_DAYS && r.value.periodEnd == today
  {
    if rows == [] then Err(NoInvestorData)
    else Ok(FlowSummary(NetSum(rows), NetSum(Tail(rows, RECENT_ROWS)), today - WINDOW_DAYS, today))
  }

  /// The whole-window sums are the five-row sums plus the sums of the older
  /// rows; with five rows or fewer the two coincide.
  lemma FlowWindowSplit(rows: seq<FlowRow>, today: Day)
    requires rows != []
    ensures var s := SupplyDemand(rows, today).value;
      && s.recent == Plus(NetSum(rows[..|rows| - |Tail(rows, RECENT_ROWS)|]), s.fiveDays)
      && (|rows| <= RECENT_ROWS ==> s.recent == s.fiveDays)
  {
    var t := Tail(rows, RECENT_ROWS);
    NetSumAppend(rows[..|rows| - |t|], t);
  }
}
