/** The query functions of the dashboard as seen from outside: each sends one statement to the
    warehouse and turns a raised call into an empty table; the summary and the marts check
    shape what comes back. */
module DataQueries {
  import opened Base
  import opened QueryText

  // ---------------------------------------------------------------------
  // The try / except around every query function
  // ---------------------------------------------------------------------

  /** The rows a query function returns: the warehouse's table, or an empty one if the call raised. */
  function RunQuery(w: Warehouse, q: string): (r: seq<Row>)
  {
    match w(q)
    case Raised => []
    case Table(rows) => rows
  }

  function GetMonthlySalesTrends(w: Warehouse, yearFilter: Option<string>): (r: seq<Row>)
  {
    RunQuery(w, MonthlySalesQuery(yearFilter))
  }

  /** The `limit` parameter's default. */
  const DefaultCategoriesLimit: int := 20

  /** `get_top_products_categories(limit)`; None stands for a call that omits the argument. */
  function GetTopProductsCategories(w: Warehouse, limit: Option<int>): (r: seq<Row>)
  {
    RunQuery(w, TopCategoriesQuery(if limit.Some? then limit.value else DefaultCategoriesLimit))
  }

  /** Each query function returns what the warehouse answers to a statement that carries the
      caller's choice: the concrete year (or none), and the limit given or else 20. */
  lemma QueryFunctionsSendChoices(w: Warehouse, yearFilter: Option<string>, limit: Option<int>)
    ensures exists q :: GetMonthlySalesTrends(w, yearFilter) == RunQuery(w, q)
                        && YearOf(q) == (if IsConcreteYear(yearFilter) then Some(yearFilter.value) else None)
    ensures exists q :: GetTopProductsCategories(w, limit) == RunQuery(w, q)
                        && LimitOf(q) == Some(if limit.Some? then limit.value else 20)
    ensures GetTopProductsCategories(w, None) == GetTopProductsCategories(w, Some(20))
  {
    MonthlyYearRoundTrip(yearFilter);
    var chosen := if limit.Some? then limit.value else DefaultCategoriesLimit;
    CategoriesLimitRoundTrip(chosen);
    assert GetTopProductsCategories(w, limit) == RunQuery(w, TopCategoriesQuery(chosen));
  }

  /** A query function returns the warehouse's rows when the call succeeds and nothing when it
      raises, so a failed call cannot be told apart from a successful call that matched no rows. */
  lemma QueryFailureLooksEmpty(w: Warehouse, q: string)
    ensures w(q).Table? ==> RunQuery(w, q) == w(q).rows
    ensures w(q).Raised? ==> RunQuery(w, q) == []
    ensures RunQuery(w, q) == [] <==> (w(q).Raised? || w(q) == Table([]))
  {
  }

  // ---------------------------------------------------------------------
  // get_dashboard_summary
  // ---------------------------------------------------------------------

  /** A value of the summary dict: a Python int or a Python float. */
  datatype SummaryValue = IntValue(n: int) | FloatValue(x: PyFloat)

  /** Python's `int(...)` on a cell; None where it raises (NaN, pd.NA). */
  function AsInt(c: Cell): (r: Option<int>)
  {
    match c
    case IntCell(i) => Some(i)
    case FloatCell(x) => if x.NaN? then None else Some(Truncate(x.val))
    case NullCell => None
  }

  /** Python's `float(...)` on a cell; None where it raises (pd.NA). */
  function AsFloat(c: Cell): (r: Option<PyFloat>)
  {
    match c
    case IntCell(i) => Some(Finite(i as real))
    case FloatCell(x) => Some(x)
    case NullCell => None
  }

  const IntKeys: set<string> :=
    {"total_orders", "total_items", "unique_customers", "unique_sellers", "unique_products"}
  const FloatKeys: set<string> := {"total_sales", "avg_order_value"}

  /** Every one of the seven reads and conversions of the first row succeeds. */
  predicate SummaryConvertible(row: Row)
  {
    (forall k :: k in IntKeys ==> k in row && AsInt(row[k]).Some?)
    && (forall k :: k in FloatKeys ==> k in row && AsFloat(row[k]).Some?)
  }

  /** The dict built from the first row; any failing read or conversion is caught and gives `{}`. */
  function SummaryOfRow(row: Row): (r: map<string, SummaryValue>)
  {
    if SummaryConvertible(row) then
      map k | k in IntKeys + FloatKeys ::
        if k in IntKeys then IntValue(AsInt(row[k]).value) else FloatValue(AsFloat(row[k]).value)
    else map[]
  }

  /** `get_dashboard_summary`. */
  function DashboardSummary(w: Warehouse): (r: map<string, SummaryValue>)
  {
    match w(SummaryQuery)
    case Raised => map[]
    case Table(rows) => if |rows| > 0 then SummaryOfRow(rows[0]) else map[]
  }

  /** The summary is either `{}` or has exactly the seven keys; it is non-empty exactly when the
      query succeeded with a row whose seven columns all convert, and then every value is that
      row's column converted (an int column truncated toward zero, a float column as is). */
  lemma DashboardSummaryShape(w: Warehouse)
    ensures var s := DashboardSummary(w);
            s == map[] || s.Keys == IntKeys + FloatKeys
    ensures var s := DashboardSummary(w);
            s != map[] <==> (w(SummaryQuery).Table? && |w(SummaryQuery).rows| > 0
                             && SummaryConvertible(w(SummaryQuery).rows[0]))
    ensures var s := DashboardSummary(w);
            s != map[] ==>
              (forall k :: k in IntKeys ==>
                 s[k] == IntValue(AsInt(w(SummaryQuery).rows[0][k]).value))
              && (forall k :: k in FloatKeys ==>
                 s[k] == FloatValue(AsFloat(w(SummaryQuery).rows[0][k]).value))
  {
    var s := DashboardSummary(w);
    if w(SummaryQuery).Table? && |w(SummaryQuery).rows| > 0
       && SummaryConvertible(w(SummaryQuery).rows[0]) {
      assert "total_orders" in s;
    }
  }

  // ---------------------------------------------------------------------
  // validate_marts_data
  // ---------------------------------------------------------------------

  const RequiredTables: seq<string> :=
    ["fact_sales", "dim_customers", "dim_products", "dim_sellers",
     "dim_orders", "dim_payments", "dim_reviews", "dim_date"]

  /** `result.iloc[0]['count'] > 0`; NaN and pd.NA are not positive. */
  predicate CountIsPositive(c: Cell)
  {
    match c
    case IntCell(i) => i > 0
    case FloatCell(x) => x.Finite? && x.val > 0.0
    case NullCell => false
  }

  /** The verdict for one table: the probe returned a first row whose count is positive. A raised
      probe, an empty result and a missing `count` column (a KeyError) all give False. */
  predicate TableHasData(o: QueryOutcome)
  {
    o.Table? && |o.rows| > 0 && "count" in o.rows[0] && CountIsPositive(o.rows[0]["count"])
  }

  lemma RequiredTablesDistinct()
    ensures |RequiredTables| == 8
    ensures forall i, j :: 0 <= i < j < |RequiredTables| ==> RequiredTables[i] != RequiredTables[j]
  {
  }

  /** `validate_marts_data`: one entry per required table, in order; a failing probe gives False
      for its table and the loop goes on to the next. */
  method ValidateMartsData(w: Warehouse) returns (results: seq<(string, bool)>)
    ensures |results| == |RequiredTables|
    ensures forall i :: 0 <= i < |results| ==>
              results[i] == (RequiredTables[i], TableHasData(w(CountQuery(RequiredTables[i]))))
    ensures forall i, j :: 0 <= i < j < |results| ==> results[i].0 != results[j].0
  {
    RequiredTablesDistinct();
    results := [];
    for i := 0 to |RequiredTables|
      invariant |results| == i
      invariant forall j :: 0 <= j < i ==>
                  results[j] == (RequiredTables[j], TableHasData(w(CountQuery(RequiredTables[j]))))
    {
      var table := RequiredTables[i];
      var outcome := w(CountQuery(table));
      var ok := false;
      if outcome.Table? {
        ok := |outcome.rows| > 0 && "count" in outcome.rows[0]
              && CountIsPositive(outcome.rows[0]["count"]);
      }
      results := results + [(table, ok)];
    }
  }
}
