/** The data-shaping steps of the chart helpers: padding a pie chart's table out to its fixed
    segments, choosing the tier of a currency or percentage label, and the heatmap pivot. */
module VisualizationHelpers {
  import opened Base

  // ---------------------------------------------------------------------
  // Segment completion for the two customer pie charts
  // ---------------------------------------------------------------------

  /** A row of the chart's input table: its `names_col` and `values_col`. */
  datatype SegmentRow = SegmentRow(name: string, value: real)

  /** A row of `complete_data`. */
  datatype PieEntry = PieEntry(segment: string, value: real, originalName: string)

  /** A segment key and its legend description, in the order the dict literal lists them. */
  datatype Segment = Segment(key: string, description: string)

  const BehaviorSegments: seq<Segment> := [
    Segment("One-Time Customer", "One-Time Customer (1 order)"),
    Segment("Regular Customer", "Regular Customer (2-5 orders)"),
    Segment("Loyal Customer", "Loyal Customer (6+ orders)")
  ]

  const ValueSegments: seq<Segment> := [
    Segment("Low Value", "Low Value (≤$100 spend)"),
    Segment("Medium Value", "Medium Value ($101-$500 spend)"),
    Segment("High Value", "High Value ($500+ spend)")
  ]

  /** `df[df[names_col] == key][values_col].iloc[0]`, or None when the filtered frame is empty. */
  function FirstValue(rows: seq<SegmentRow>, key: string): (r: Option<real>)
  {
    if rows == [] then None
    else if rows[0].name == key then Some(rows[0].value)
    else FirstValue(rows[1..], key)
  }

  function ValueOrZero(v: Option<real>): (r: real)
  {
    if v.Some? then v.value else 0.0
  }

  /** FirstValue finds the first row with that name, and reports None only when no row has it. */
  lemma {:induction false} FirstValueSpec(rows: seq<SegmentRow>, key: string)
    ensures FirstValue(rows, key).None? <==> forall i :: 0 <= i < |rows| ==> rows[i].name != key
    ensures FirstValue(rows, key).Some? ==>
              exists i :: 0 <= i < |rows| && rows[i].name == key
                          && rows[i].value == FirstValue(rows, key).value
                          && forall j :: 0 <= j < i ==> rows[j].name != key
  {
    if rows != [] && rows[0].name != key {
      FirstValueSpec(rows[1..], key);
      assert forall i :: 1 <= i < |rows| ==> rows[i] == rows[1..][i - 1];
      if FirstValue(rows, key).Some? {
        var i :| 0 <= i < |rows[1..]| && rows[1..][i].name == key
                 && rows[1..][i].value == FirstValue(rows, key).value
                 && forall j :: 0 <= j < i ==> rows[1..][j].name != key;
        assert rows[i + 1] == rows[1..][i];
        assert forall j :: 1 <= j < i + 1 ==> rows[j] == rows[1..][j - 1];
      }
    }
  }

  /** Rows whose name differs from the key change nothing, wherever they stand. */
  lemma {:induction false} FirstValueIgnoresOthers(before: seq<SegmentRow>, rows: seq<SegmentRow>,
                                                   after: seq<SegmentRow>, key: string)
    requires forall i :: 0 <= i < |before| ==> before[i].name != key
    requires forall i :: 0 <= i < |after| ==> after[i].name != key
    ensures FirstValue(before + rows + after, key) == FirstValue(rows, key)
    decreases |before|, |rows|
  {
    if before != [] {
      assert (before + rows + after)[1..] == before[1..] + rows + after;
      FirstValueIgnoresOthers(before[1..], rows, after, key);
    } else if rows != [] {
      assert before + rows + after == rows + after;
      if rows[0].name != key {
        assert (rows + after)[1..] == [] + rows[1..] + after;
        FirstValueIgnoresOthers([], rows[1..], after, key);
      }
    } else {
      assert before + rows + after == after;
      FirstValueSpec(after, key);
    }
  }

  /** The `for segment, description in all_segments.items()` loop that builds `complete_data`. */
  method CompleteSegments(rows: seq<SegmentRow>, segments: seq<Segment>) returns (complete: seq<PieEntry>)
    ensures |complete| == |segments|
    ensures forall i :: 0 <= i < |segments| ==>
              complete[i] == PieEntry(segments[i].description,
                                      ValueOrZero(FirstValue(rows, segments[i].key)),
                                      segments[i].key)
  {
    complete := [];
    for i := 0 to |segments|
      invariant |complete| == i
      invariant forall j :: 0 <= j < i ==>
                  complete[j] == PieEntry(segments[j].description,
                                          ValueOrZero(FirstValue(rows, segments[j].key)),
                                          segments[j].key)
    {
      var found := FirstValue(rows, segments[i].key);
      if found.Some? {
        complete := complete + [PieEntry(segments[i].description, found.value, segments[i].key)];
      } else {
        complete := complete + [PieEntry(segments[i].description, 0.0, segments[i].key)];
      }
    }
  }

  /** The segment completion of `create_customer_behavior_pie_chart`, for a frame that has both
      columns: One-Time, Regular, Loyal, in that order, each with its first matching value or 0. */
  method CompleteBehaviorSegments(rows: seq<SegmentRow>) returns (complete: seq<PieEntry>)
    ensures |complete| == 3
    ensures complete[0].originalName == "One-Time Customer"
         && complete[1].originalName == "Regular Customer"
         && complete[2].originalName == "Loyal Customer"
    ensures forall i :: 0 <= i < 3 ==>
              complete[i].segment == BehaviorSegments[i].description
              && complete[i].value == ValueOrZero(FirstValue(rows, complete[i].originalName))
  {
    complete := CompleteSegments(rows, BehaviorSegments);
  }

  /** The segment completion of `create_customer_value_pie_chart`, for a frame that has both
      columns: Low, Medium, High, in that order. */
  method CompleteValueSegments(rows: seq<SegmentRow>) returns (complete: seq<PieEntry>)
    ensures |complete| == 3
    ensures complete[0].originalName == "Low Value"
         && complete[1].originalName == "Medium Value"
         && complete[2].originalName == "High Value"
    ensures forall i :: 0 <= i < 3 ==>
              complete[i].segment == ValueSegments[i].description
              && complete[i].value == ValueOrZero(FirstValue(rows, complete[i].originalName))
  {
    complete := CompleteSegments(rows, ValueSegments);
  }

  // ---------------------------------------------------------------------
  // format_currency and format_percentage
  // ---------------------------------------------------------------------

  /** The text a formatter returns: a fixed literal, or `prefix + f"{amount:.<places>f}" + suffix`
      (the digits themselves are not modelled). */
  datatype Label = Literal(text: string) | Fixed(prefix: string, amount: real, places: nat, suffix: string)

  const Million: real := 1000000.0
  const Thousand: real := 1000.0

  /** `format_currency`. */
  function FormatCurrency(v: PyFloat): (r: Label)
  {
    if v.NaN? || v.val == 0.0 then Literal("$0.00")
    else if Abs(v.val) >= Million then Fixed("$", v.val / Million, 1, "M")
    else if Abs(v.val) >= Thousand then Fixed("$", v.val / Thousand, 1, "K")
    else Fixed("$", v.val, 2, "")
  }

  /** What a currency label stands for: its amount times its suffix's multiplier. */
  function CurrencyMeaning(l: Label): (r: real)
  {
    match l
    case Literal(_) => 0.0
    case Fixed(_, amount, _, suffix) =>
      if suffix == "M" then amount * Million else if suffix == "K" then amount * Thousand else amount
  }

  /** Reading a currency label back gives the value formatted (before rounding of the digits). */
  lemma CurrencyRoundTrip(x: real)
    ensures CurrencyMeaning(FormatCurrency(Finite(x))) == x
  {
  }

  /** The tier is chosen by thresholds on the absolute value. Before its digits are rounded, the
      amount is at least 1 in the M and K tiers and below 1000 in the K and plain tiers; only zero
      and NaN take the `Literal` branch. */
  lemma CurrencyTiers(x: real)
    ensures FormatCurrency(NaN) == Literal("$0.00")
    ensures var l := FormatCurrency(Finite(x));
            (x == 0.0 <==> l == Literal("$0.00"))
            && (Abs(x) >= Million <==> l.Fixed? && l.suffix == "M")
            && (Thousand <= Abs(x) < Million <==> l.Fixed? && l.suffix == "K")
            && (0.0 < Abs(x) < Thousand <==> l.Fixed? && l.suffix == "" && l.places == 2)
            && (l.Fixed? && l.suffix != "" ==> 1.0 <= Abs(l.amount) && l.places == 1)
            && (l.Fixed? && l.suffix != "M" ==> Abs(l.amount) < Thousand)
  {
  }

  /** A negative value takes the tier of its absolute value, with the amount negated. */
  lemma CurrencySignSymmetric(x: real)
    requires x != 0.0
    ensures var p, n := FormatCurrency(Finite(x)), FormatCurrency(Finite(-x));
            p.Fixed? && n.Fixed? && p.suffix == n.suffix && p.places == n.places && n.amount == -p.amount
  {
  }

  /** `format_percentage`: a value of magnitude at most 1 is read as a fraction. */
  function FormatPercentage(v: PyFloat): (r: Label)
  {
    if v.NaN? then Literal("0.0%")
    else if Abs(v.val) <= 1.0 then Fixed("", v.val * 100.0, 1, "%")
    else Fixed("", v.val, 1, "%")
  }

  /** The tier of a percentage: NaN gives the `Literal` branch, a magnitude at most 1 is scaled by
      100, anything larger is shown as it is, always with one place and a `%` suffix. */
  lemma PercentageTiers(x: real)
    ensures FormatPercentage(NaN) == Literal("0.0%")
    ensures var l := FormatPercentage(Finite(x));
            l.Fixed? && l.prefix == "" && l.places == 1 && l.suffix == "%"
            && (Abs(x) <= 1.0 <==> l.amount == x * 100.0 && (x != 0.0 ==> l.amount != x))
            && (Abs(x) > 1.0 ==> l.amount == x)
  {
  }

  /** Two different numbers get the same unrounded percentage label exactly when one of them is a
      fraction (magnitude at most 1) and the other is that fraction times 100 with magnitude above
      1: for instance 1 and 100 both show as 100.0%. */
  lemma PercentageCollisions(x: real, y: real)
    requires x != y
    ensures FormatPercentage(NaN) != FormatPercentage(Finite(x))
    ensures FormatPercentage(Finite(x)) == FormatPercentage(Finite(y))
        <==> ((Abs(x) <= 1.0 && Abs(y) > 1.0 && y == x * 100.0)
              || (Abs(y) <= 1.0 && Abs(x) > 1.0 && x == y * 100.0))
  {
  }

  lemma PercentageOneIsAFraction()
    ensures FormatPercentage(Finite(1.0)) == FormatPercentage(Finite(100.0)) == Fixed("", 100.0, 1, "%")
  {
  }

  // ---------------------------------------------------------------------
  // create_regional_heatmap: pivot and fillna(0)
  // ---------------------------------------------------------------------

  /** A row of the regional sales table. */
  datatype RegionSales = RegionSales(customerRegion: string, sellerRegion: string, totalSales: real)

  function CustomerRegions(rows: seq<RegionSales>): (r: set<string>)
  {
    set i | 0 <= i < |rows| :: rows[i].customerRegion
  }

  function SellerRegions(rows: seq<RegionSales>): (r: set<string>)
  {
    set i | 0 <= i < |rows| :: rows[i].sellerRegion
  }

  /** `DataFrame.pivot` refuses two rows for the same (customer, seller) pair. */
  predicate HasDuplicatePair(rows: seq<RegionSales>)
  {
    exists i, j :: 0 <= i < j < |rows|
      && rows[i].customerRegion == rows[j].customerRegion
      && rows[i].sellerRegion == rows[j].sellerRegion
  }

  /** The value of the row for a pair, or 0 (the `fillna(0)`) when no row has it. */
  function CellValue(rows: seq<RegionSales>, c: string, s: string): (r: real)
  {
    if rows == [] then 0.0
    else if rows[0].customerRegion == c && rows[0].sellerRegion == s then rows[0].totalSales
    else CellValue(rows[1..], c, s)
  }

  /** Every (customer region, seller region) pair seen: the grid's index times its columns. */
  function GridKeys(rows: seq<RegionSales>): (r: set<(string, string)>)
  {
    set c, s | c in CustomerRegions(rows) && s in SellerRegions(rows) :: (c, s)
  }

  /** The pivoted grid; None where pandas raises on a duplicate pair. */
  function Pivot(rows: seq<RegionSales>): (r: Option<map<(string, string), real>>)
  {
    if HasDuplicatePair(rows) then None
    else Some(map p | p in GridKeys(rows) :: CellValue(rows, p.0, p.1))
  }

  predicate IsPair(r: RegionSales, c: string, s: string)
  {
    r.customerRegion == c && r.sellerRegion == s
  }

  /** No row before position `k` is for the pair. */
  predicate NoPairBefore(rows: seq<RegionSales>, k: int, c: string, s: string)
    requires k <= |rows|
  {
    forall j :: 0 <= j < k ==> !IsPair(rows[j], c, s)
  }

  /** The cell holds the first row for the pair, or 0 when there is none. */
  lemma {:induction false} CellValueSpec(rows: seq<RegionSales>, c: string, s: string)
    ensures NoPairBefore(rows, |rows|, c, s) ==> CellValue(rows, c, s) == 0.0
    ensures forall i :: 0 <= i < |rows| && IsPair(rows[i], c, s) && NoPairBefore(rows, i, c, s)
                        ==> CellValue(rows, c, s) == rows[i].totalSales
  {
    if rows != [] {
      var tail := rows[1..];
      CellValueSpec(tail, c, s);
      if !IsPair(rows[0], c, s) {
        assert CellValue(rows, c, s) == CellValue(tail, c, s);
        forall i | 0 <= i < |rows| && IsPair(rows[i], c, s) && NoPairBefore(rows, i, c, s)
          ensures CellValue(rows, c, s) == rows[i].totalSales
        {
          assert i > 0 && rows[i] == tail[i - 1];
          assert NoPairBefore(tail, i - 1, c, s) by {
            forall j | 0 <= j < i - 1 ensures !IsPair(tail[j], c, s) {
              assert tail[j] == rows[j + 1];
            }
          }
        }
        if NoPairBefore(rows, |rows|, c, s) {
          assert NoPairBefore(tail, |tail|, c, s) by {
            forall j | 0 <= j < |tail| ensures !IsPair(tail[j], c, s) {
              assert tail[j] == rows[j + 1];
            }
          }
        }
      }
    }
  }

  /** The grid has a cell for every (customer region, seller region) pair seen, each input row's
      value sits in its cell, and every pair no row has is 0. */
  lemma PivotSpec(rows: seq<RegionSales>)
    requires !HasDuplicatePair(rows)
    ensures Pivot(rows).Some?
    ensures var g := Pivot(rows).value;
            (forall c, s :: (c, s) in g <==> c in CustomerRegions(rows) && s in SellerRegions(rows))
            && (forall i :: 0 <= i < |rows| ==>
                  g[(rows[i].customerRegion, rows[i].sellerRegion)] == rows[i].totalSales)
            && (forall c, s :: ((c, s) in g
                  && forall i :: 0 <= i < |rows| ==> rows[i].customerRegion != c || rows[i].sellerRegion != s)
                  ==> g[(c, s)] == 0.0)
  {
    var g := Pivot(rows).value;
    assert forall c, s :: (c, s) in g <==> (c, s) in GridKeys(rows);
    forall i | 0 <= i < |rows|
      ensures g[(rows[i].customerRegion, rows[i].sellerRegion)] == rows[i].totalSales
    {
      var c, s := rows[i].customerRegion, rows[i].sellerRegion;
      assert c in CustomerRegions(rows) && s in SellerRegions(rows);
      assert (c, s) in GridKeys(rows);
      assert IsPair(rows[i], c, s) && NoPairBefore(rows, i, c, s);
      CellValueSpec(rows, c, s);
    }
    forall c, s | (c, s) in g
                  && forall i :: 0 <= i < |rows| ==> rows[i].customerRegion != c || rows[i].sellerRegion != s
      ensures g[(c, s)] == 0.0
    {
      CellValueSpec(rows, c, s);
    }
  }
}
