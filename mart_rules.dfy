/** What the dashboard's SELECT statements compute, stated as functions over the rows of the
    star-schema marts: the review-category CASE, the one-time / repeat customer split and the
    on-time / late delivery counts. Dimension tables are maps, so their keys are unique. */
module MartRules {
  import opened Base

  /** A row of `fact_sales`, reduced to the columns these rules read. */
  datatype Fact = Fact(orderKey: int, customerKey: int, dateKey: int,
                       reviewKey: Option<int>, totalItemValue: real)

  /** A row of `dim_customers`; the region may be NULL. */
  datatype Customer = Customer(region: Option<string>)

  /** A row of `dim_reviews`; the score may be NULL. */
  datatype Review = Review(score: Option<int>)

  /** A row of `dim_orders`: delivery day count and on-time flag, both nullable. */
  datatype Order = Order(daysToDelivery: Option<real>, onTime: Option<bool>)

  /** The marts: the fact table, and the dimensions keyed by their surrogate keys. */
  datatype Mart = Mart(facts: seq<Fact>,
                       customers: map<int, Customer>,
                       dates: set<int>,
                       orders: map<int, Order>,
                       reviews: map<int, Review>)

  // ---------------------------------------------------------------------
  // get_reviews_sales_correlation
  // ---------------------------------------------------------------------

  datatype ReviewCategory = NoReview | Positive | Neutral | Negative

  function Label(c: ReviewCategory): (r: string)
  {
    match c
    case NoReview => "No Review"
    case Positive => "Positive (4-5)"
    case Neutral => "Neutral (3)"
    case Negative => "Negative (1-2)"
  }

  /** Grouping by label is grouping by category: the four labels differ. */
  lemma LabelsDistinct(c1: ReviewCategory, c2: ReviewCategory)
    requires c1 != c2
    ensures Label(c1) != Label(c2)
  {
    assert Label(c1)[0] != Label(c2)[0] || Label(c1)[2] != Label(c2)[2];
  }

  /** The review a fact row meets through the LEFT JOIN; None when `r.review_key` is NULL. */
  function JoinedReview(m: Mart, f: Fact): (r: Option<Review>)
  {
    if f.reviewKey.Some? && f.reviewKey.value in m.reviews then Some(m.reviews[f.reviewKey.value])
    else None
  }

  /** The CASE expression. A NULL score makes both score tests unknown, so it falls to ELSE. */
  function Categorize(r: Option<Review>): (res: ReviewCategory)
  {
    if r.None? then NoReview
    else if r.value.score.Some? && r.value.score.value >= 4 then Positive
    else if r.value.score.Some? && r.value.score.value == 3 then Neutral
    else Negative
  }

  function CategoryOf(m: Mart, f: Fact): (r: ReviewCategory)
  {
    Categorize(JoinedReview(m, f))
  }

  /** `COUNT(f.order_item_sk)` (every fact row has one) over the rows of category `c`. */
  function ItemsIn(m: Mart, fs: seq<Fact>, c: ReviewCategory): (r: nat)
  {
    if fs == [] then 0
    else ItemsIn(m, fs[..|fs| - 1], c) + (if CategoryOf(m, fs[|fs| - 1]) == c then 1 else 0)
  }

  /** `COUNT(r.review_key)` over the rows of category `c`. */
  function ReviewedIn(m: Mart, fs: seq<Fact>, c: ReviewCategory): (r: nat)
  {
    if fs == [] then 0
    else ReviewedIn(m, fs[..|fs| - 1], c)
         + (if CategoryOf(m, fs[|fs| - 1]) == c && JoinedReview(m, fs[|fs| - 1]).Some? then 1 else 0)
  }

  /** `SUM(f.total_item_value)` over the rows of category `c` (before rounding). */
  function SalesIn(m: Mart, fs: seq<Fact>, c: ReviewCategory): (r: real)
  {
    if fs == [] then 0.0
    else SalesIn(m, fs[..|fs| - 1], c)
         + (if CategoryOf(m, fs[|fs| - 1]) == c then fs[|fs| - 1].totalItemValue else 0.0)
  }

  function TotalValue(fs: seq<Fact>): (r: real)
  {
    if fs == [] then 0.0 else TotalValue(fs[..|fs| - 1]) + fs[|fs| - 1].totalItemValue
  }

  /** One output row of the review correlation query. */
  datatype ReviewGroup = ReviewGroup(totalItems: nat, totalSales: real,
                                     reviewsCount: nat, noReviewCount: int)

  function ReviewGroupOf(m: Mart, c: ReviewCategory): (r: ReviewGroup)
  {
    var items := ItemsIn(m, m.facts, c);
    var reviewed := ReviewedIn(m, m.facts, c);
    ReviewGroup(items, SalesIn(m, m.facts, c), reviewed, items - reviewed)
  }

  const AllCategories: set<ReviewCategory> := {NoReview, Positive, Neutral, Negative}

  /** The result of `get_reviews_sales_correlation`: one row per category that has rows. */
  function ReviewsSalesCorrelation(m: Mart): (r: map<ReviewCategory, ReviewGroup>)
  {
    map c | c in AllCategories && ItemsIn(m, m.facts, c) > 0 :: ReviewGroupOf(m, c)
  }

  /** Inside a category, reviewed and unreviewed rows add up to the items; 'No Review' has no
      reviews and every other category has nothing but reviews. */
  lemma {:induction false} ReviewCounts(m: Mart, fs: seq<Fact>, c: ReviewCategory)
    ensures ReviewedIn(m, fs, c) <= ItemsIn(m, fs, c)
    ensures c == NoReview ==> ReviewedIn(m, fs, c) == 0
    ensures c != NoReview ==> ReviewedIn(m, fs, c) == ItemsIn(m, fs, c)
  {
    if fs != [] {
      ReviewCounts(m, fs[..|fs| - 1], c);
    }
  }

  /** The four categories partition the fact rows: none is dropped, none counted twice,
      and the category sales add up to the whole. */
  lemma {:induction false} ReviewPartition(m: Mart, fs: seq<Fact>)
    ensures ItemsIn(m, fs, NoReview) + ItemsIn(m, fs, Positive)
          + ItemsIn(m, fs, Neutral) + ItemsIn(m, fs, Negative) == |fs|
    ensures SalesIn(m, fs, NoReview) + SalesIn(m, fs, Positive)
          + SalesIn(m, fs, Neutral) + SalesIn(m, fs, Negative) == TotalValue(fs)
  {
    if fs != [] {
      ReviewPartition(m, fs[..|fs| - 1]);
    }
  }

  /** A category has a row in the result exactly when some fact row falls into it. */
  lemma {:induction false} ItemsInPositive(m: Mart, fs: seq<Fact>, c: ReviewCategory)
    ensures ItemsIn(m, fs, c) > 0 <==> exists i :: 0 <= i < |fs| && CategoryOf(m, fs[i]) == c
  {
    if fs != [] {
      var init := fs[..|fs| - 1];
      ItemsInPositive(m, init, c);
      if ItemsIn(m, init, c) > 0 {
        var i :| 0 <= i < |init| && CategoryOf(m, init[i]) == c;
        assert fs[i] == init[i];
      }
      if exists i :: 0 <= i < |fs| && CategoryOf(m, fs[i]) == c {
        var i :| 0 <= i < |fs| && CategoryOf(m, fs[i]) == c;
        if i < |init| {
          assert init[i] == fs[i];
        }
      }
    }
  }

  /** Every result row is consistent: it has at least one item, reviewed and unreviewed rows add
      up to its items, 'No Review' has no reviews and every other category has nothing else. */
  lemma ReviewCorrelationRows(m: Mart)
    ensures var r := ReviewsSalesCorrelation(m);
            forall c :: c in r ==>
              && r[c].totalItems >= 1
              && r[c].reviewsCount + r[c].noReviewCount == r[c].totalItems
              && r[c].noReviewCount >= 0
              && (c == NoReview ==> r[c].reviewsCount == 0)
              && (c != NoReview ==> r[c].noReviewCount == 0)
  {
    forall c | c in AllCategories {
      ReviewCounts(m, m.facts, c);
    }
  }

  /** A category has a row exactly when some fact row falls into it. */
  lemma ReviewCorrelationKeys(m: Mart)
    ensures var r := ReviewsSalesCorrelation(m);
            forall c :: c in r <==> exists i :: 0 <= i < |m.facts| && CategoryOf(m, m.facts[i]) == c
  {
    forall c: ReviewCategory {
      ItemsInPositive(m, m.facts, c);
    }
  }

  /** Together the rows account for every fact row. */
  lemma ReviewCorrelationTotal(m: Mart)
    ensures var r := ReviewsSalesCorrelation(m);
            (if NoReview in r then r[NoReview].totalItems else 0)
            + (if Positive in r then r[Positive].totalItems else 0)
            + (if Neutral in r then r[Neutral].totalItems else 0)
            + (if Negative in r then r[Negative].totalItems else 0) == |m.facts|
  {
    ReviewPartition(m, m.facts);
  }

  /** With no review attached to any row, the result is the single 'No Review' row holding all of them. */
  lemma {:induction false} AllUnreviewedCounts(m: Mart, fs: seq<Fact>)
    requires forall i :: 0 <= i < |fs| ==> fs[i].reviewKey.None?
    ensures ItemsIn(m, fs, NoReview) == |fs|
    ensures ReviewedIn(m, fs, NoReview) == 0
  {
    if fs != [] {
      AllUnreviewedCounts(m, fs[..|fs| - 1]);
    }
  }

  lemma AllUnreviewed(m: Mart)
    requires |m.facts| > 0
    requires forall i :: 0 <= i < |m.facts| ==> m.facts[i].reviewKey.None?
    ensures var r := ReviewsSalesCorrelation(m);
            r.Keys == {NoReview}
            && r[NoReview].reviewsCount == 0
            && r[NoReview].noReviewCount == |m.facts|
            && r[NoReview].totalItems == |m.facts|
  {
    AllUnreviewedCounts(m, m.facts);
    ReviewPartition(m, m.facts);
  }

  // ---------------------------------------------------------------------
  // get_customer_behavior
  // ---------------------------------------------------------------------

  /** A fact row survives the inner joins with `dim_customers` and `dim_date`. */
  predicate BehaviorJoins(m: Mart, f: Fact)
  {
    f.customerKey in m.customers && f.dateKey in m.dates
  }

  /** The customers of the `customer_metrics` CTE. */
  function CustomerKeys(m: Mart): (r: set<int>)
  {
    set i | 0 <= i < |m.facts| && BehaviorJoins(m, m.facts[i]) :: m.facts[i].customerKey
  }

  /** The distinct orders of one customer. */
  function CustomerOrders(m: Mart, k: int): (r: set<int>)
  {
    set i | 0 <= i < |m.facts| && BehaviorJoins(m, m.facts[i]) && m.facts[i].customerKey == k
          :: m.facts[i].orderKey
  }

  /** `order_count`: `COUNT(DISTINCT f.order_key)` for one customer. */
  function OrderCount(m: Mart, k: int): (r: nat)
  {
    |CustomerOrders(m, k)|
  }

  function RegionCustomers(m: Mart, region: Option<string>): (r: set<int>)
  {
    set k | k in CustomerKeys(m) && k in m.customers && m.customers[k].region == region
  }

  function OneTimeCustomers(m: Mart, region: Option<string>): (r: set<int>)
  {
    set k | k in RegionCustomers(m, region) && OrderCount(m, k) == 1
  }

  function RepeatCustomers(m: Mart, region: Option<string>): (r: set<int>)
  {
    set k | k in RegionCustomers(m, region) && OrderCount(m, k) > 1
  }

  /** One output row of the customer behaviour query. */
  datatype BehaviorRow = BehaviorRow(customerCount: nat, oneTimeCustomers: nat, repeatCustomers: nat)

  function CustomerRegions(m: Mart): (r: set<Option<string>>)
  {
    set k | k in CustomerKeys(m) && k in m.customers :: m.customers[k].region
  }

  /** The result of `get_customer_behavior`: one row per customer region (NULL included). */
  function CustomerBehavior(m: Mart): (r: map<Option<string>, BehaviorRow>)
  {
    map r | r in CustomerRegions(m) ::
      BehaviorRow(|RegionCustomers(m, r)|, |OneTimeCustomers(m, r)|, |RepeatCustomers(m, r)|)
  }

  /** Every customer of the CTE has at least one order: the customer came from a fact row. */
  lemma OrderCountPositive(m: Mart, k: int)
    requires k in CustomerKeys(m)
    ensures OrderCount(m, k) >= 1
  {
    var i :| 0 <= i < |m.facts| && BehaviorJoins(m, m.facts[i]) && m.facts[i].customerKey == k;
    assert m.facts[i].orderKey in CustomerOrders(m, k);
  }

  /** One-time and repeat customers split each region's customers between them. */
  lemma OneTimeRepeatSplit(m: Mart, region: Option<string>)
    ensures |OneTimeCustomers(m, region)| + |RepeatCustomers(m, region)| == |RegionCustomers(m, region)|
  {
    var all := RegionCustomers(m, region);
    var one := OneTimeCustomers(m, region);
    var rep := RepeatCustomers(m, region);
    forall k | k in all ensures k in one + rep {
      OrderCountPositive(m, k);
    }
    assert one + rep == all;
    assert one * rep == {};
  }

  /** Every row of the customer behaviour result has customers, and one-time plus repeat is all of them. */
  lemma CustomerBehaviorSound(m: Mart)
    ensures var b := CustomerBehavior(m);
            forall r :: r in b ==>
              b[r].customerCount >= 1
              && b[r].oneTimeCustomers + b[r].repeatCustomers == b[r].customerCount
  {
    var b := CustomerBehavior(m);
    forall r | r in b
      ensures b[r].customerCount >= 1
      ensures b[r].oneTimeCustomers + b[r].repeatCustomers == b[r].customerCount
    {
      var k :| k in CustomerKeys(m) && k in m.customers && m.customers[k].region == r;
      assert k in RegionCustomers(m, r);
      OneTimeRepeatSplit(m, r);
    }
  }

  // ---------------------------------------------------------------------
  // get_delivery_patterns
  // ---------------------------------------------------------------------

  /** A fact row survives the inner joins and the `days_to_delivery IS NOT NULL` filter. */
  predicate DeliveryJoins(m: Mart, f: Fact)
  {
    f.orderKey in m.orders && f.customerKey in m.customers
    && m.orders[f.orderKey].daysToDelivery.Some?
  }

  predicate InDeliveryRegion(m: Mart, f: Fact, region: Option<string>)
  {
    DeliveryJoins(m, f) && m.customers[f.customerKey].region == region
  }

  /** `COUNT(*)` for one region. */
  function DeliveryRows(m: Mart, fs: seq<Fact>, region: Option<string>): (r: nat)
  {
    if fs == [] then 0
    else DeliveryRows(m, fs[..|fs| - 1], region)
         + (if InDeliveryRegion(m, fs[|fs| - 1], region) then 1 else 0)
  }

  /** `on_time_deliveries`: rows whose on-time flag is TRUE. */
  function OnTimeIn(m: Mart, fs: seq<Fact>, region: Option<string>): (r: nat)
  {
    if fs == [] then 0
    else OnTimeIn(m, fs[..|fs| - 1], region)
         + (if InDeliveryRegion(m, fs[|fs| - 1], region)
               && m.orders[fs[|fs| - 1].orderKey].onTime == Some(true) then 1 else 0)
  }

  /** `late_deliveries`: rows whose flag is FALSE; `NOT NULL` is unknown, so NULL counts nowhere. */
  function LateIn(m: Mart, fs: seq<Fact>, region: Option<string>): (r: nat)
  {
    if fs == [] then 0
    else LateIn(m, fs[..|fs| - 1], region)
         + (if InDeliveryRegion(m, fs[|fs| - 1], region)
               && m.orders[fs[|fs| - 1].orderKey].onTime == Some(false) then 1 else 0)
  }

  /** One output row of the delivery patterns query (rate before rounding). */
  datatype DeliveryRow = DeliveryRow(rowCount: nat, onTimeDeliveries: nat,
                                     lateDeliveries: nat, onTimeRate: real)

  function DeliveryRegions(m: Mart): (r: set<Option<string>>)
  {
    set i | 0 <= i < |m.facts| && DeliveryJoins(m, m.facts[i]) :: m.customers[m.facts[i].customerKey].region
  }

  function DeliveryRowOf(m: Mart, region: Option<string>): (r: DeliveryRow)
    requires DeliveryRows(m, m.facts, region) > 0
  {
    var n := DeliveryRows(m, m.facts, region);
    var onTime := OnTimeIn(m, m.facts, region);
    DeliveryRow(n, onTime, LateIn(m, m.facts, region), (onTime as real) * 100.0 / (n as real))
  }

  /** The result of `get_delivery_patterns`: one row per customer region that has delivered rows. */
  function DeliveryPatterns(m: Mart): (r: map<Option<string>, DeliveryRow>)
  {
    map r | r in DeliveryRegions(m) && DeliveryRows(m, m.facts, r) > 0 :: DeliveryRowOf(m, r)
  }

  /** On-time and late rows never exceed the rows, and fill them exactly when no flag is NULL. */
  lemma {:induction false} DeliveryCounts(m: Mart, fs: seq<Fact>, region: Option<string>)
    ensures OnTimeIn(m, fs, region) + LateIn(m, fs, region) <= DeliveryRows(m, fs, region)
    ensures OnTimeIn(m, fs, region) + LateIn(m, fs, region) == DeliveryRows(m, fs, region)
        <==> forall i :: 0 <= i < |fs| && InDeliveryRegion(m, fs[i], region)
                         ==> m.orders[fs[i].orderKey].onTime.Some?
  {
    if fs != [] {
      var init := fs[..|fs| - 1];
      DeliveryCounts(m, init, region);
      var last := fs[|fs| - 1];
      assert forall i :: 0 <= i < |init| ==> init[i] == fs[i];
      var lastOk := InDeliveryRegion(m, last, region) ==> m.orders[last.orderKey].onTime.Some?;
      assert (forall i :: 0 <= i < |fs| && InDeliveryRegion(m, fs[i], region)
                          ==> m.orders[fs[i].orderKey].onTime.Some?)
         <==> (forall i :: 0 <= i < |init| && InDeliveryRegion(m, init[i], region)
                          ==> m.orders[init[i].orderKey].onTime.Some?)
              && lastOk;
      var o := OnTimeIn(m, fs, region) - OnTimeIn(m, init, region);
      var l := LateIn(m, fs, region) - LateIn(m, init, region);
      var r := DeliveryRows(m, fs, region) - DeliveryRows(m, init, region);
      if InDeliveryRegion(m, last, region) {
        var flag := m.orders[last.orderKey].onTime;
        assert r == 1;
        if flag.Some? {
          if flag.value {
            assert flag == Some(true);
            assert o == 1 && l == 0;
          } else {
            assert flag == Some(false);
            assert o == 0 && l == 1;
          }
        } else {
          assert o == 0 && l == 0 && !lastOk;
        }
      } else {
        assert o == 0 && l == 0 && r == 0 && lastOk;
      }
    }
  }

  /** A region appears in the delivery result exactly when some delivered row belongs to it. */
  lemma {:induction false} DeliveryRowsPositive(m: Mart, fs: seq<Fact>, region: Option<string>)
    ensures DeliveryRows(m, fs, region) > 0
        <==> exists i :: 0 <= i < |fs| && InDeliveryRegion(m, fs[i], region)
  {
    if fs != [] {
      var init := fs[..|fs| - 1];
      DeliveryRowsPositive(m, init, region);
      if DeliveryRows(m, init, region) > 0 {
        var i :| 0 <= i < |init| && InDeliveryRegion(m, init[i], region);
        assert fs[i] == init[i];
      }
      if exists i :: 0 <= i < |fs| && InDeliveryRegion(m, fs[i], region) {
        var i :| 0 <= i < |fs| && InDeliveryRegion(m, fs[i], region);
        if i < |init| {
          assert init[i] == fs[i];
        }
      }
    }
  }

  /** A percentage of a part over a non-empty whole lies in [0, 100]. */
  lemma RateBounds(part: nat, whole: nat)
    requires part <= whole && whole > 0
    ensures 0.0 <= (part as real) * 100.0 / (whole as real) <= 100.0
  {
    var k, n := part as real, whole as real;
    assert k * 100.0 <= n * 100.0;
    assert k * 100.0 / n <= n * 100.0 / n;
  }

  /** The delivery result has a row for exactly the regions that have delivered rows. */
  lemma DeliveryPatternsKeys(m: Mart)
    ensures DeliveryPatterns(m).Keys == DeliveryRegions(m)
  {
    forall r | r in DeliveryRegions(m) ensures DeliveryRows(m, m.facts, r) > 0 {
      var i :| 0 <= i < |m.facts| && DeliveryJoins(m, m.facts[i])
               && m.customers[m.facts[i].customerKey].region == r;
      assert InDeliveryRegion(m, m.facts[i], r);
      DeliveryRowsPositive(m, m.facts, r);
    }
  }

  /** Every delivery row: on-time plus late is at most the row count, and the rate lies in [0, 100]. */
  lemma DeliveryPatternsSound(m: Mart)
    ensures var d := DeliveryPatterns(m);
            forall r :: r in d ==>
              d[r].onTimeDeliveries + d[r].lateDeliveries <= d[r].rowCount
              && 0.0 <= d[r].onTimeRate <= 100.0
  {
    var d := DeliveryPatterns(m);
    forall r | r in d
      ensures d[r].onTimeDeliveries + d[r].lateDeliveries <= d[r].rowCount
      ensures 0.0 <= d[r].onTimeRate <= 100.0
    {
      DeliveryCounts(m, m.facts, r);
      RateBounds(OnTimeIn(m, m.facts, r), DeliveryRows(m, m.facts, r));
    }
  }
}
