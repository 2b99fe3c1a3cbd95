/** `process_row`: one input row is converted, quoted and merged with its
    charge map into one output row. */
module Rows {
  import opened Wrappers
  import opened Text
  import opened Decimal
  import opened Charges

  /** A spreadsheet cell as pandas hands it over. */
  datatype Cell = IntCell(i: int) | RealCell(x: real) | TextCell(s: string)

  /** One input row; the numeric columns are kept as the cells they were read as. */
  datatype Record = Record(
    slNo: int, symbol: string, lotSize: Cell, noOfLots: Cell,
    totalLotSize: Cell, buyValue: Cell, sellValue: Cell)

  /** One row of the summary report. `noOfLots` and `totalLotSize` are the
      input cells, untouched; `charges` is the converted charge map. */
  datatype OutputRow = OutputRow(
    slNo: int, symbol: string, lotSize: int, premiumValue: real,
    noOfLots: Cell, totalLotSize: Cell, totalPremiumValue: real,
    charges: seq<(string, Cell)>)

  /** Python's `int(x)` of a float: truncation toward zero. */
  function Trunc(x: real): (r: int)
    ensures x >= 0.0 ==> r as real <= x < r as real + 1.0
    ensures x < 0.0 ==> r as real - 1.0 < x <= r as real
  {
    if x >= 0.0 then x.Floor else -((-x).Floor)
  }

  /** Python's `int(cell)`; `None` is the `ValueError` it raises. */
  function ToInt(c: Cell): Option<int> {
    match c
    case IntCell(i) => Some(i)
    case RealCell(x) => Some(Trunc(x))
    case TextCell(s) => ParseInt(s)
  }

  /** Python's `float(cell)`; `None` is the `ValueError` it raises. */
  function ToFloat(c: Cell): Option<real> {
    match c
    case IntCell(i) => Some(i as real)
    case RealCell(x) => Some(x)
    case TextCell(s) => match ParseFloat(s) case Some(d) => Some(ToReal(d)) case None => None
  }

  /** `value.replace(".", "", 1)`: the first point, if any, is deleted. */
  function RemoveFirstPoint(s: string): (r: string)
    ensures |r| == |s| || |r| == |s| - 1
  {
    var i := IndexOf(s, '.');
    if i == |s| then s else s[..i] + s[i + 1..]
  }

  /** `value.replace(".", "", 1).isdigit()`. */
  predicate IsNumericString(s: string) {
    var t := RemoveFirstPoint(s);
    |t| > 0 && AllDigits(t)
  }

  /** Digits on both sides of a point at `i`, at least one digit in all. */
  predicate PointedDigits(s: string, i: int) {
    0 <= i < |s| && s[i] == '.' && |s| >= 2 && AllDigits(s[..i]) && AllDigits(s[i + 1..])
  }

  lemma NoPointInDigits(s: string)
    requires AllDigits(s)
    ensures IndexOf(s, '.') == |s|
  {
    IndexOfIs(s, '.', |s|);
  }

  /** Deleting the point of a pointed digit string leaves the digits. */
  lemma RemovePointedPoint(s: string, i: int)
    requires PointedDigits(s, i)
    ensures IndexOf(s, '.') == i
    ensures RemoveFirstPoint(s) == s[..i] + s[i + 1..]
    ensures AllDigits(RemoveFirstPoint(s)) && |RemoveFirstPoint(s)| == |s| - 1
  {
    forall k | 0 <= k < i ensures s[k] != '.' { assert s[k] == s[..i][k]; }
    IndexOfIs(s, '.', i);
    AllDigitsAppend(s[..i], s[i + 1..]);
  }

  /** A numeric string is a non-empty run of digits, or digits with one point
      somewhere among them and at least one digit beside it. */
  lemma NumericStringShape(s: string)
    ensures IsNumericString(s) <==>
      (|s| > 0 && AllDigits(s)) || (exists i :: PointedDigits(s, i))
  {
    var i := IndexOf(s, '.');
    IndexOfSpec(s, '.');
    if IsNumericString(s) && i < |s| {
      var t := RemoveFirstPoint(s);
      assert t == s[..i] + s[i + 1..];
      var ip, fp := s[..i], s[i + 1..];
      forall k | 0 <= k < |ip| ensures IsDigit(ip[k]) { assert ip[k] == t[k]; }
      forall k | 0 <= k < |fp| ensures IsDigit(fp[k]) { assert fp[k] == t[i + k]; }
      assert PointedDigits(s, i);
    }
    if |s| > 0 && AllDigits(s) {
      NoPointInDigits(s);
    }
    if exists j :: PointedDigits(s, j) {
      var j :| PointedDigits(s, j);
      RemovePointedPoint(s, j);
    }
  }

  predicate DigitsOrPoints(s: string) {
    forall k :: 0 <= k < |s| ==> IsDigit(s[k]) || s[k] == '.'
  }

  lemma NumericStringChars(s: string)
    requires IsNumericString(s)
    ensures |s| > 0 && DigitsOrPoints(s)
  {
    NumericStringShape(s);
    if !AllDigits(s) {
      var j :| PointedDigits(s, j);
      forall k | 0 <= k < |s| ensures IsDigit(s[k]) || s[k] == '.' {
        if k < j { assert s[k] == s[..j][k]; }
        else if k > j { assert s[k] == s[j + 1..][k - j - 1]; }
      }
    }
  }

  /** A non-empty string of digits and points has no white space, sign or
      exponent for `float()` to split off. */
  lemma PlainLiteral(s: string)
    requires |s| > 0 && DigitsOrPoints(s)
    ensures SplitSign(Trim(s)) == (false, s)
    ensures IndexOfExponent(s) == |s|
  {
    assert !IsSpace(s[0]) && !IsSpace(s[|s| - 1]);
    TrimNoSpaceEnds(s);
    IndexOfExponentIs(s, |s|);
  }

  /** Every numeric string is one `float()` accepts, with a non-negative value. */
  lemma NumericStringParses(s: string)
    requires IsNumericString(s)
    ensures ParseFloat(s).Some? && ToReal(ParseFloat(s).value) >= 0.0
  {
    NumericStringChars(s);
    PlainLiteral(s);
    assert s[..|s|] == s;
    NumericStringShape(s);
    if AllDigits(s) {
      MantissaOfDigits(s);
    } else {
      var j :| PointedDigits(s, j);
      RemovePointedPoint(s, j);
    }
    UnsignedNonNegative(ParseFloat(s).value);
  }

  /** Charge strings the report turns into numbers. */
  lemma NumericStringAccepts()
    ensures IsNumericString("12.5") && IsNumericString("7") && IsNumericString("5.")
  {
    assert RemoveFirstPoint("12.5") == "125";
    assert RemoveFirstPoint("7") == "7";
    assert RemoveFirstPoint("5.") == "5";
  }

  /** A lone point, a second point, a sign or a currency sign keeps a string
      as text. */
  lemma NumericStringRejects()
    ensures !IsNumericString(".") && !IsNumericString("") && !IsNumericString("-1")
  {
    assert RemoveFirstPoint(".") == "";
    assert RemoveFirstPoint("-1") == "-1";
  }

  lemma NumericStringRejectsTwoPoints()
    ensures !IsNumericString("1.2.3")
  {
    assert IndexOf("1.2.3", '.') == 1;
    assert RemoveFirstPoint("1.2.3")[2] == '.';
  }

  lemma NumericStringRejectsRupee()
    ensures !IsNumericString("\U{20B9}1.00")
  {
    assert RemoveFirstPoint("\U{20B9}1.00")[0] == '\U{20B9}';
  }

  /** A charge value as stored in the report: a float when it is a numeric
      string, the string itself otherwise. */
  function ConvertCharge(v: string): (c: Cell)
    ensures c.RealCell? <==> IsNumericString(v)
    ensures c.TextCell? ==> c.s == v
    ensures c.RealCell? ==> ParseFloat(v).Some? && c.x == ToReal(ParseFloat(v).value) && c.x >= 0.0
    ensures !c.IntCell?
  {
    if IsNumericString(v) then
      NumericStringParses(v);
      RealCell(ToReal(ParseFloat(v).value))
    else TextCell(v)
  }

  /** A value ending in `%`, such as the percentage column, always stays text. */
  lemma PercentStaysText(v: string)
    requires |v| > 0 && v[|v| - 1] == '%'
    ensures ConvertCharge(v) == TextCell(v)
  {
    var t := RemoveFirstPoint(v);
    var i := IndexOf(v, '.');
    IndexOfSpec(v, '.');
    if i < |v| {
      assert i < |v| - 1;
      assert t[|t| - 1] == v[|v| - 1];
    }
    assert !IsDigit(t[|t| - 1]);
  }

  /** The charge map merged into the row: names kept, values converted. */
  function ConvertCharges(items: seq<(string, string)>): seq<(string, Cell)> {
    seq(|items|, i requires 0 <= i < |items| => (items[i].0, ConvertCharge(items[i].1)))
  }

  /** The four conversions `process_row` starts with, in its order. */
  datatype Inputs = Inputs(lot: int, lots: int, buy: real, sell: real)

  /** `int(LOT_SIZE)`, `int(NO_OF_LOTS)`, `float(BUY_VALUE)`, `float(SELL_VALUE)`;
      `None` when any of them raises. */
  function Convert(rec: Record): Option<Inputs> {
    match (ToInt(rec.lotSize), ToInt(rec.noOfLots), ToFloat(rec.buyValue), ToFloat(rec.sellValue))
    case (Some(lot), Some(lots), Some(buy), Some(sell)) => Some(Inputs(lot, lots, buy, sell))
    case _ => None
  }

  /** The quote `process_row` asks for: the quantity is `lot_size * no_of_lots`. */
  function QuoteFor(v: Inputs): Request {
    Request(v.lot, v.lot * v.lots, v.buy, v.sell)
  }

  /** `(buy + sell) * no_of_lots * lot_size`, multiplied left to right; it is
      the turnover of the quote. */
  function TotalPremium(v: Inputs): (r: real)
    ensures r == Turnover(QuoteFor(v))
  {
    (v.buy + v.sell) * v.lots as real * v.lot as real
  }

  /** `process_row`: the merged output row, or `None` when a conversion
      raises or the quote failed (the missing result has no `.items()`). */
  function ProcessRow(rec: Record, service: Request -> Option<Scrape>, render: real -> string)
    : (r: Option<OutputRow>)
    ensures r.Some? <==>
      && Convert(rec).Some?
      && CalculateBrokerage(QuoteFor(Convert(rec).value), service(QuoteFor(Convert(rec).value)), render).Some?
    ensures r.Some? ==>
      var v := Convert(rec).value;
      var q := QuoteFor(v);
      && r.value.slNo == rec.slNo && r.value.symbol == rec.symbol
      && r.value.noOfLots == rec.noOfLots && r.value.totalLotSize == rec.totalLotSize
      && r.value.lotSize == v.lot
      && r.value.premiumValue == v.buy + v.sell
      && r.value.totalPremiumValue == Turnover(q)
      && r.value.charges == ConvertCharges(CalculateBrokerage(q, service(q), render).value)
  {
    match Convert(rec)
    case None => None
    case Some(v) =>
      var q := QuoteFor(v);
      match CalculateBrokerage(q, service(q), render)
      case None => None
      case Some(items) =>
        Some(OutputRow(rec.slNo, rec.symbol, v.lot, v.buy + v.sell, rec.noOfLots,
                       rec.totalLotSize, TotalPremium(v), ConvertCharges(items)))
  }

  /** A row whose lot size or lot count `int()` rejects, or whose buy or sell
      value `float()` rejects, raises before the quote is made and is dropped,
      whatever the calculator would have shown. */
  lemma UnconvertibleDropped(rec: Record, service: Request -> Option<Scrape>, render: real -> string)
    requires || ToInt(rec.lotSize).None? || ToInt(rec.noOfLots).None?
             || ToFloat(rec.buyValue).None? || ToFloat(rec.sellValue).None?
    ensures ProcessRow(rec, service, render).None?
  {
  }

  /** Where `int()` and `float()` both accept a cell they agree on its value. */
  lemma ToIntToFloat(c: Cell)
    requires !c.RealCell?
    ensures ToInt(c).Some? ==> ToFloat(c).Some? && ToFloat(c).value == ToInt(c).value as real
  {
    if c.TextCell? {
      IntIsFloat(c.s);
    }
  }

  /** The `TOTAL_LOT_SIZE` column takes no part in the quote: changing it
      changes only that column of the output row. */
  lemma TotalLotSizeIgnored(rec: Record, c: Cell, service: Request -> Option<Scrape>, render: real -> string)
    ensures ProcessRow(rec.(totalLotSize := c), service, render).Some? == ProcessRow(rec, service, render).Some?
    ensures ProcessRow(rec, service, render).Some? ==>
      ProcessRow(rec.(totalLotSize := c), service, render).value
        == ProcessRow(rec, service, render).value.(totalLotSize := c)
  {
    assert Convert(rec.(totalLotSize := c)) == Convert(rec);
  }

  /** A row with no lots, an empty lot or no premium divides by a zero
      turnover and is dropped. */
  lemma ZeroQuantityDropped(rec: Record, service: Request -> Option<Scrape>, render: real -> string)
    requires Convert(rec).Some?
    requires var v := Convert(rec).value; v.lot == 0 || v.lots == 0 || v.buy + v.sell == 0.0
    ensures ProcessRow(rec, service, render).None?
  {
    var v := Convert(rec).value;
    var q := QuoteFor(v);
    assert q.totalLotSize == 0 || q.buy + q.sell == 0.0;
    ZeroTurnoverFails(q, service(q), render);
  }

  /** Converting the values keeps every key where it was, so a lookup by name
      finds the converted value. */
  lemma LookupConverted(items: seq<(string, string)>, i: nat)
    requires i < |items|
    requires forall j, k :: 0 <= j < k < |items| ==> items[j].0 != items[k].0
    ensures Lookup(ConvertCharges(items), items[i].0) == Some(ConvertCharge(items[i].1))
  {
    LookupAt(ConvertCharges(items), i);
  }

  /** In a successful row the two total columns hold the same value, and the
      percentage column keeps the rendered percentage, with its `%`, as text. */
  lemma RowChargeColumns(rec: Record, service: Request -> Option<Scrape>, render: real -> string)
    requires ProcessRow(rec, service, render).Some?
    ensures var o := ProcessRow(rec, service, render).value;
            var q := QuoteFor(Convert(rec).value);
            && Lookup(o.charges, "TOTAL TAX AND CHARGES") == Lookup(o.charges, "TOTAL BROKERAGE")
            && Lookup(o.charges, "TOTAL BROKERAGE").Some?
            && Lookup(o.charges, "BROKERAGE %")
               == Some(TextCell(render(BrokeragePercentage(q, service(q).value).value) + "%"))
  {
    var q := QuoteFor(Convert(rec).value);
    var s := service(q).value;
    var m := CalculateBrokerage(q, service(q), render).value;
    assert m == ResultMap(s, render(BrokeragePercentage(q, s).value) + "%");
    ResultMapKeys(s, render(BrokeragePercentage(q, s).value) + "%");
    LookupConverted(m, 6);
    LookupConverted(m, 8);
    LookupConverted(m, 9);
    PercentStaysText(m[9].1);
  }

  /** The fixed leading columns of an output row, before the charge map. */
  const RowKeys: seq<string> := [
    "SL_N0", "SYMBOLS", "LOT_SIZE", "PREMUIM_VALUE", "NO_OF_LOTS", "TOTAL_LOT_SIZE",
    "TOTAL_PREMIUM_VALUE"]

  /** The keys of an output row's dictionary, in insertion order. */
  function Columns(o: OutputRow): seq<string> {
    RowKeys + seq(|o.charges|, i requires 0 <= i < |o.charges| => o.charges[i].0)
  }

  lemma ColumnsOf(o: OutputRow, keys: seq<string>)
    requires |o.charges| == |keys|
    requires forall i :: 0 <= i < |keys| ==> o.charges[i].0 == keys[i]
    ensures Columns(o) == RowKeys + keys
  {
    var c := Columns(o);
    forall i | 0 <= i < |c| ensures c[i] == (RowKeys + keys)[i] {
      if i < |RowKeys| {
        assert c[i] == c[..|RowKeys|][i];
      }
    }
  }

  /** Every successful row has the same seventeen columns, in the same order. */
  lemma RowColumns(rec: Record, service: Request -> Option<Scrape>, render: real -> string)
    requires ProcessRow(rec, service, render).Some?
    ensures Columns(ProcessRow(rec, service, render).value) == RowKeys + ChargeKeys
  {
    var o := ProcessRow(rec, service, render).value;
    var q := QuoteFor(Convert(rec).value);
    var s := service(q).value;
    var m := CalculateBrokerage(q, service(q), render).value;
    assert m == ResultMap(s, render(BrokeragePercentage(q, s).value) + "%");
    ResultMapKeys(s, render(BrokeragePercentage(q, s).value) + "%");
    assert o.charges == ConvertCharges(m);
    ColumnsOf(o, ChargeKeys);
  }
}
