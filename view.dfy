/**
 The live conversion list: one row per displayed currency that has a rate,
 with its cross rate against the base, the converted amount and the number
 of decimals the row is shown with; and the decimal rules of the memory list.
 */
module View {
  import opened Currencies

  /** A rate snapshot: each code's rate against the reference currency (TWD). */
  type Rates = map<Code, real>

  /** Every rate in the snapshot is strictly positive. */
  predicate PositiveRates(rates: Rates) {
    forall c :: c in rates ==> rates[c] > 0.0
  }

  /** `rates.get(base, 1)`: a base without a rate is taken at rate 1. */
  function BaseRate(rates: Rates, base: Code): (b: real)
    requires PositiveRates(rates)
    ensures b > 0.0
  {
    if base in rates then rates[base] else 1.0
  }

  /** Currencies shown without decimals in the live list. */
  const WholeUnitCodes: seq<Code> := ["VND", "KRW", "JPY"]

  /**
   Decimals of a live row: none for VND, KRW and JPY; otherwise two below
   10,000 and one from 10,000 on.
   */
  function LiveDecimals(code: Code, converted: real): (d: nat)
    ensures d == 0 <==> code in WholeUnitCodes
    ensures d == 2 <==> code !in WholeUnitCodes && converted < 10000.0
    ensures d == 1 <==> code !in WholeUnitCodes && converted >= 10000.0
  {
    if code in WholeUnitCodes then 0
    else if converted < 10000.0 then 2
    else 1
  }

  /** Decimals of a pinned record's base amount: none for a whole amount from 10,000 on, else two. */
  function SavedBaseDecimals(baseAmt: real): (d: nat)
    ensures d == 0 <==> baseAmt >= 10000.0 && baseAmt.Floor as real == baseAmt
    ensures d == 0 || d == 2
  {
    if baseAmt >= 10000.0 && baseAmt.Floor as real == baseAmt then 0 else 2
  }

  /**
   Decimals of a pinned record's converted amount: none for VND, JPY and KRW
   or from 10,000 on, else two.
   */
  function SavedTargetDecimals(target: Code, targetAmt: real): (d: nat)
    ensures d == 0 <==> target in WholeUnitCodes || targetAmt >= 10000.0
    ensures d == 0 || d == 2
  {
    if target in ["VND", "JPY", "KRW"] || targetAmt >= 10000.0 then 0 else 2
  }

  /**
   A pinned amount is never shown with more decimals than the live row for
   the same currency and amount, and the two agree exactly when the
   currency is shown whole or the amount is below 10,000.
   */
  lemma SavedAndLiveDecimals(code: Code, amount: real)
    ensures SavedTargetDecimals(code, amount) <= LiveDecimals(code, amount)
    ensures SavedTargetDecimals(code, amount) == LiveDecimals(code, amount) <==>
      code in WholeUnitCodes || amount < 10000.0
  {
  }

  /** One row of the live list. */
  datatype Row = Row(code: Code, cross: real, converted: real, decimals: nat)

  /** The row for `code`: cross rate against the base and the converted amount. */
  function MakeRow(code: Code, base: Code, amount: real, rates: Rates): Row
    requires PositiveRates(rates) && code in rates
  {
    var cross := rates[code] / BaseRate(rates, base);
    var converted := amount * cross;
    Row(code, cross, converted, LiveDecimals(code, converted))
  }

  /**
   The live list for `order`: each code with a rate, in list order, gets its
   row; codes without a rate are skipped.
   */
  function Conversions(order: seq<Code>, base: Code, amount: real, rates: Rates): (rows: seq<Row>)
    requires PositiveRates(rates)
    ensures |rows| <= |order|
    ensures forall k :: 0 <= k < |rows| ==>
      rows[k].code in order && rows[k].code in rates &&
      rows[k].cross * BaseRate(rates, base) == rates[rows[k].code] &&
      rows[k].converted == amount * rows[k].cross &&
      rows[k].decimals == LiveDecimals(rows[k].code, rows[k].converted)
  {
    if order == [] then []
    else
      var last := order[|order| - 1];
      var front := Conversions(order[..|order| - 1], base, amount, rates);
      if last in rates then front + [MakeRow(last, base, amount, rates)] else front
  }

  /** `[c for c in order if c in rates]`: the codes that can be converted, in list order. */
  function Convertible(order: seq<Code>, rates: Rates): seq<Code> {
    if order == [] then []
    else if order[0] in rates then [order[0]] + Convertible(order[1..], rates)
    else Convertible(order[1..], rates)
  }

  /** A code is convertible exactly when it is displayed and has a rate. */
  lemma {:induction false} ConvertibleMembers(order: seq<Code>, rates: Rates, c: Code)
    ensures c in Convertible(order, rates) <==> c in order && c in rates
  {
    if order != [] {
      ConvertibleMembers(order[1..], rates, c);
      assert order == [order[0]] + order[1..];
    }
  }

  /** The codes of a list of rows. */
  function Codes(rows: seq<Row>): (r: seq<Code>)
    ensures |r| == |rows|
  {
    seq(|rows|, k requires 0 <= k < |rows| => rows[k].code)
  }

  lemma {:induction false} ConvertibleAppend(order: seq<Code>, c: Code, rates: Rates)
    ensures Convertible(order + [c], rates) ==
      Convertible(order, rates) + (if c in rates then [c] else [])
  {
    if order != [] {
      assert (order + [c])[1..] == order[1..] + [c];
      ConvertibleAppend(order[1..], c, rates);
    }
  }

  /**
   The live list follows the display order exactly: its codes are the
   displayed codes that have a rate, in display order, each once per
   occurrence.
   */
  lemma {:induction false} ConversionsFollowOrder(order: seq<Code>, base: Code, amount: real, rates: Rates)
    requires PositiveRates(rates)
    ensures Codes(Conversions(order, base, amount, rates)) == Convertible(order, rates)
  {
    if order != [] {
      var front := order[..|order| - 1];
      var last := order[|order| - 1];
      ConversionsFollowOrder(front, base, amount, rates);
      assert order == front + [last];
      ConvertibleAppend(front, last, rates);
    }
  }

  /** Extending the display list by one code adds at most that code's row at the end. */
  lemma ConversionsStep(order: seq<Code>, i: nat, base: Code, amount: real, rates: Rates)
    requires PositiveRates(rates) && i < |order|
    ensures Conversions(order[..i + 1], base, amount, rates) ==
      Conversions(order[..i], base, amount, rates) +
      (if order[i] in rates then [MakeRow(order[i], base, amount, rates)] else [])
  {
    assert order[..i + 1][..i] == order[..i];
  }

  /**
   The live list as the page builds it, walking the display order once and
   skipping codes without a rate.
   */
  method ComputeView(order: seq<Code>, base: Code, amount: real, rates: Rates) returns (rows: seq<Row>)
    requires PositiveRates(rates)
    ensures rows == Conversions(order, base, amount, rates)
  {
    var baseRate := if base in rates then rates[base] else 1.0;
    rows := [];
    for i := 0 to |order|
      invariant rows == Conversions(order[..i], base, amount, rates)
    {
      var target := order[i];
      ConversionsStep(order, i, base, amount, rates);
      if target !in rates {
        continue;
      }
      var cross := rates[target] / baseRate;
      var converted := amount * cross;
      assert Row(target, cross, converted, LiveDecimals(target, converted)) == MakeRow(target, base, amount, rates);
      rows := rows + [Row(target, cross, converted, LiveDecimals(target, converted))];
    }
    assert order[..|order|] == order;
  }

  /** The sample snapshot of the worked example: TWD 1, USD 0.031, JPY 4.5. */
  const SampleRates: Rates := map["TWD" := 1.0, "USD" := 0.031, "JPY" := 4.5]

  lemma SampleConvertible()
    ensures Convertible(InitialTargets, SampleRates) == ["USD", "JPY"]
  {
  }

  /**
   From the starting list with base TWD and the sample rates, any amount
   gives exactly two rows: USD at cross rate 0.031 and JPY at 4.5, each
   converted amount being the amount times that rate.
   */
  lemma SampleRows(amount: real)
    ensures var rows := Conversions(InitialTargets, InitialBase, amount, SampleRates);
      |rows| == 2 &&
      rows[0] == Row("USD", 0.031, amount * 0.031, LiveDecimals("USD", amount * 0.031)) &&
      rows[1] == Row("JPY", 4.5, amount * 4.5, 0)
  {
    var rows := Conversions(InitialTargets, InitialBase, amount, SampleRates);
    assert |rows| == 2 && rows[0].code == "USD" && rows[1].code == "JPY" by {
      SampleConvertible();
      ConversionsFollowOrder(InitialTargets, InitialBase, amount, SampleRates);
      assert Codes(rows) == ["USD", "JPY"];
      assert rows[0].code == Codes(rows)[0];
      assert rows[1].code == Codes(rows)[1];
    }
    assert BaseRate(SampleRates, InitialBase) == 1.0;
  }

}
