/** The SQL text the dashboard's query functions send to the warehouse.
    Layout whitespace of the statements is normalised to single spaces. */
module QueryText {
  import opened Base

  // ---------------------------------------------------------------------
  // Decimal rendering of Python integers, as `f"{n}"` does it
  // ---------------------------------------------------------------------

  predicate IsDigit(ch: char) { '0' <= ch <= '9' }

  function DigitChar(d: nat): (ch: char)
    requires d < 10
    ensures IsDigit(ch) && (ch as int) - ('0' as int) == d
  {
    (('0' as int) + d) as char
  }

  function DigitValue(ch: char): (r: nat)
    requires IsDigit(ch)
  {
    (ch as int) - ('0' as int)
  }

  /** `str(n)` for a non-negative integer: its digits, most significant first, no leading zero. */
  function NatToText(n: nat): (s: string)
    decreases n
  {
    if n < 10 then [DigitChar(n)] else NatToText(n / 10) + [DigitChar(n % 10)]
  }

  /** `str(i)` for any integer: a minus sign in front of a negative one. */
  function IntToText(i: int): (r: string)
  {
    if i < 0 then "-" + NatToText(-i) else NatToText(i)
  }

  predicate AllDigits(s: string)
  {
    forall k :: 0 <= k < |s| ==> IsDigit(s[k])
  }

  /** Reads back a run of decimal digits. */
  function DigitsValue(s: string): (r: nat)
    requires AllDigits(s)
  {
    if s == [] then 0 else DigitsValue(s[..|s| - 1]) * 10 + DigitValue(s[|s| - 1])
  }

  /** Reads back an optionally signed decimal integer; None for anything else. */
  function TextToInt(s: string): (r: Option<int>)
  {
    if |s| > 0 && s[0] == '-' then
      if |s| > 1 && AllDigits(s[1..]) then Some(-(DigitsValue(s[1..]) as int)) else None
    else if |s| > 0 && AllDigits(s) then Some(DigitsValue(s) as int)
    else None
  }

  lemma {:induction false} NatToTextDigits(n: nat)
    ensures |NatToText(n)| > 0 && AllDigits(NatToText(n))
    ensures DigitsValue(NatToText(n)) == n
    decreases n
  {
    if n >= 10 {
      NatToTextDigits(n / 10);
      var s := NatToText(n);
      assert s[..|s| - 1] == NatToText(n / 10);
      assert s[|s| - 1] == DigitChar(n % 10);
    }
  }

  /** The decimal text of an integer reads back as that integer. */
  lemma IntTextRoundTrip(i: int)
    ensures TextToInt(IntToText(i)) == Some(i)
  {
    if i < 0 {
      NatToTextDigits(-i);
      var s := IntToText(i);
      assert s[1..] == NatToText(-i);
    } else {
      NatToTextDigits(i);
    }
  }

  /** A helper about slicing the middle piece out of a concatenation. */
  lemma SliceMiddle(a: string, b: string, c: string)
    ensures (a + b + c)[|a|..|a| + |b|] == b
    ensures (a + b + c)[|a|..] == b + c
  {
  }

  // ---------------------------------------------------------------------
  // get_monthly_sales_trends: the optional year predicate
  // ---------------------------------------------------------------------

  /** The year selector's "all" choice. */
  const AllYears: string := "All Years"
  const YearPredicate: string := "AND d.year = "
  const WhereTrue: string := "WHERE 1=1 "

  /** A year filter that Python treats as truthy and that is not the "all" choice. */
  predicate IsConcreteYear(yearFilter: Option<string>)
  {
    yearFilter.Some? && yearFilter.value != "" && yearFilter.value != AllYears
  }

  /** `year_condition`: the predicate text injected after `WHERE 1=1`. */
  function YearCondition(yearFilter: Option<string>): (r: string)
  {
    if IsConcreteYear(yearFilter) then YearPredicate + yearFilter.value else ""
  }

  /** The WHERE clause of the monthly trends query. */
  function MonthlyWhere(yearFilter: Option<string>): (r: string)
  {
    WhereTrue + YearCondition(yearFilter)
  }

  const MonthlyHead: string :=
    "SELECT FORMAT_DATE('%Y-%m', d.full_date) as month_year, d.year, d.month, d.month_name, "
    + "COUNT(DISTINCT f.order_key) as total_orders, COUNT(f.order_item_sk) as total_items, "
    + "ROUND(SUM(f.total_item_value), 2) as total_sales, ROUND(SUM(f.payment_value), 2) as total_payments, "
    + "ROUND(AVG(f.total_item_value), 2) as avg_order_value, ROUND(AVG(f.payment_value), 2) as avg_payment_value "
    + "FROM `olist_marts.fact_sales` f JOIN `olist_marts.dim_date` d ON f.date_key = d.date_key "

  const MonthlyTail: string :=
    " GROUP BY d.year, d.month, d.month_name, d.full_date ORDER BY d.year, d.month"

  /** The statement `get_monthly_sales_trends` sends. */
  function MonthlySalesQuery(yearFilter: Option<string>): (r: string)
  {
    MonthlyHead + MonthlyWhere(yearFilter) + MonthlyTail
  }

  /** The text between a prefix of length `start` and a suffix of length `tailLen`, with the
      leading `pre` stripped; None when it does not start with `pre`. */
  function CondAfter(q: string, start: nat, tailLen: nat, pre: string): (r: Option<string>)
  {
    if |q| < start + tailLen then None
    else
      var cond := q[start..|q| - tailLen];
      if |cond| >= |pre| && cond[..|pre|] == pre then Some(cond[|pre|..]) else None
  }

  /** Reads the year filter back out of a monthly trends statement. */
  function YearOf(q: string): (r: Option<string>)
  {
    CondAfter(q, |MonthlyHead| + |WhereTrue|, |MonthlyTail|, YearPredicate)
  }

  /** The WHERE clause is exactly `WHERE 1=1 ` when, and only when, no concrete year is chosen. */
  lemma MonthlyWhereExact(yearFilter: Option<string>)
    ensures MonthlyWhere(yearFilter) == WhereTrue <==> !IsConcreteYear(yearFilter)
  {
    if IsConcreteYear(yearFilter) {
      assert |MonthlyWhere(yearFilter)| > |WhereTrue|;
    }
  }

  /** Splitting a condition `pre + y` off a `head + (where + cond) + tail` statement gives back `y`. */
  lemma {:induction false} CondAfterPresent(head: string, where0: string, cond: string, tail: string,
                                             pre: string, y: string)
    requires cond == pre + y
    ensures CondAfter(head + (where0 + cond) + tail, |head| + |where0|, |tail|, pre) == Some(y)
  {
    assert head + (where0 + cond) + tail == (head + where0) + cond + tail;
    SliceMiddle(head + where0, cond, tail);
    assert cond[..|pre|] == pre && cond[|pre|..] == y;
  }

  /** An empty condition yields nothing when the expected prefix is not empty. */
  lemma {:induction false} CondAfterAbsent(head: string, where0: string, tail: string, pre: string)
    requires |pre| > 0
    ensures CondAfter(head + (where0 + []) + tail, |head| + |where0|, |tail|, pre) == None
  {
    assert head + (where0 + []) + tail == (head + where0) + [] + tail;
    SliceMiddle(head + where0, [], tail);
  }

  /** The year predicate is present iff a concrete year was chosen, and it carries that year verbatim. */
  lemma {:induction false} MonthlyYearRoundTrip(yearFilter: Option<string>)
    ensures YearOf(MonthlySalesQuery(yearFilter))
         == if IsConcreteYear(yearFilter) then Some(yearFilter.value) else None
  {
    if IsConcreteYear(yearFilter) {
      CondAfterPresent(MonthlyHead, WhereTrue, YearCondition(yearFilter), MonthlyTail, YearPredicate,
                       yearFilter.value);
    } else {
      CondAfterAbsent(MonthlyHead, WhereTrue, MonthlyTail, YearPredicate);
    }
  }

  /** Two filters give the same statement exactly when they select the same year (or both select all). */
  lemma MonthlyQueryInjective(f1: Option<string>, f2: Option<string>)
    requires MonthlySalesQuery(f1) == MonthlySalesQuery(f2)
    ensures IsConcreteYear(f1) <==> IsConcreteYear(f2)
    ensures IsConcreteYear(f1) ==> f1.value == f2.value
  {
    MonthlyYearRoundTrip(f1);
    MonthlyYearRoundTrip(f2);
  }

  // ---------------------------------------------------------------------
  // get_top_products_categories: the caller's limit
  // ---------------------------------------------------------------------

  const CategoriesSelect: string :=
    "SELECT p.product_category_english as category, COUNT(DISTINCT p.product_key) as unique_products, "
    + "COUNT(f.order_item_sk) as items_sold, ROUND(SUM(f.total_item_value), 2) as total_revenue, "
    + "ROUND(AVG(f.total_item_value), 2) as avg_item_value, ROUND(SUM(f.freight_value), 2) as total_freight "
    + "FROM `olist_marts.fact_sales` f JOIN `olist_marts.dim_products` p ON f.product_key = p.product_key "

  const CategoryNotNull: string := "WHERE p.product_category_english IS NOT NULL"

  const CategoriesTail: string :=
    " GROUP BY p.product_category_english ORDER BY total_revenue DESC "

  const LimitKeyword: string := "LIMIT "

  /** The statement `get_top_products_categories` sends for a given limit. */
  function TopCategoriesQuery(limit: int): (r: string)
  {
    CategoriesSelect + CategoryNotNull + CategoriesTail + LimitKeyword + IntToText(limit)
  }

  /** Reads the LIMIT operand back out of a categories statement. */
  function LimitOf(q: string): (r: Option<int>)
  {
    var start := |CategoriesSelect| + |CategoryNotNull| + |CategoriesTail| + |LimitKeyword|;
    if |q| < start then None else TextToInt(q[start..])
  }

  /** The caller's limit is written verbatim: it reads back unchanged, whatever its sign. */
  lemma {:induction false} CategoriesLimitRoundTrip(limit: int)
    ensures LimitOf(TopCategoriesQuery(limit)) == Some(limit)
  {
    var prefix := CategoriesSelect + CategoryNotNull + CategoriesTail + LimitKeyword;
    assert TopCategoriesQuery(limit) == prefix + IntToText(limit);
    assert (prefix + IntToText(limit))[|prefix|..] == IntToText(limit);
    IntTextRoundTrip(limit);
  }

  /** A helper: the second of five concatenated pieces sits right after the first. */
  lemma SecondPiece(a: string, b: string, c: string, d: string, e: string)
    ensures var q := a + b + c + d + e;
            |q| >= |a| + |b| && q[|a|..|a| + |b|] == b
  {
    assert a + b + c + d + e == a + b + (c + d + e);
    SliceMiddle(a, b, c + d + e);
  }

  /** Every categories statement, whatever the limit, filters out null categories at the same place. */
  lemma CategoriesAlwaysExcludeNull(limit: int)
    ensures var q := TopCategoriesQuery(limit);
            |q| >= |CategoriesSelect| + |CategoryNotNull|
            && q[|CategoriesSelect|..|CategoriesSelect| + |CategoryNotNull|] == CategoryNotNull
  {
    SecondPiece(CategoriesSelect, CategoryNotNull, CategoriesTail, LimitKeyword, IntToText(limit));
  }

  // ---------------------------------------------------------------------
  // validate_marts_data and get_dashboard_summary
  // ---------------------------------------------------------------------

  /** The row-count probe `validate_marts_data` sends for one table. */
  function CountQuery(table: string): (r: string)
  {
    "SELECT COUNT(*) as count FROM `olist_marts." + table + "`"
  }

  /** Distinct tables are probed with distinct statements. */
  lemma CountQueryInjective(t1: string, t2: string)
    requires CountQuery(t1) == CountQuery(t2)
    ensures t1 == t2
  {
    var head := "SELECT COUNT(*) as count FROM `olist_marts.";
    assert CountQuery(t1) == head + t1 + "`";
    assert CountQuery(t2) == head + t2 + "`";
    assert |t1| == |t2|;
    SliceMiddle(head, t1, "`");
    SliceMiddle(head, t2, "`");
  }

  const SummaryQuery: string :=
    "SELECT COUNT(DISTINCT f.order_key) as total_orders, COUNT(f.order_item_sk) as total_items, "
    + "ROUND(SUM(f.total_item_value), 2) as total_sales, ROUND(AVG(f.total_item_value), 2) as avg_order_value, "
    + "COUNT(DISTINCT f.customer_key) as unique_customers, COUNT(DISTINCT f.seller_key) as unique_sellers, "
    + "COUNT(DISTINCT f.product_key) as unique_products FROM `olist_marts.fact_sales` f"
}
