/** The arithmetic half of `calculate_brokerage`: decoding the scraped charge
    strings, the brokerage percentage, and the result map.

    The calculator page itself is outside the model: what it displays for a
    request arrives as an `Option<Scrape>`, `None` standing for any failure
    of the browser session (start-up, time-out, missing element). */
module Charges {
  import opened Wrappers
  import opened Currency

  /** What is typed into the calculator. `lotSize` is passed along but the
      quote only uses the quantity `totalLotSize` and the two prices. */
  datatype Request = Request(lotSize: int, totalLotSize: int, buy: real, sell: real)

  /** The eight strings read back from the calculator page. */
  datatype Scrape = Scrape(
    brokerage: string, stt: string, exchange: string, gst: string,
    sebi: string, stamp: string, total: string, breakEven: string)

  /** Traded value of both legs: `(buy + sell) * total_lot_size`. */
  function Turnover(q: Request): real {
    (q.buy + q.sell) * q.totalLotSize as real
  }

  /** The seven strings that are decoded: the six components and the total.
      The break-even string is never decoded. */
  predicate Decodes(s: Scrape) {
    && CleanValue(s.brokerage).Some? && CleanValue(s.stt).Some?
    && CleanValue(s.exchange).Some? && CleanValue(s.gst).Some?
    && CleanValue(s.sebi).Some? && CleanValue(s.stamp).Some?
    && CleanValue(s.total).Some?
  }

  /** The decoded amounts of one quote. */
  datatype Amounts = Amounts(
    brokerage: real, stt: real, exchange: real, gst: real, sebi: real, stamp: real, total: real)

  /** `clean_value` applied to the seven decoded strings, in the source's order;
      any failure fails the whole quote. */
  function DecodeScrape(s: Scrape): Option<Amounts> {
    if Decodes(s) then
      Some(Amounts(
        CleanValue(s.brokerage).value, CleanValue(s.stt).value, CleanValue(s.exchange).value,
        CleanValue(s.gst).value, CleanValue(s.sebi).value, CleanValue(s.stamp).value,
        CleanValue(s.total).value))
    else None
  }

  /** Sum of the six components; the decoded total is not part of it. */
  function ComponentSum(a: Amounts): real {
    a.brokerage + a.stt + a.exchange + a.gst + a.sebi + a.stamp
  }

  /** `(sum / turnover) * 100`, characterised without the division. */
  function Percent(sum: real, turnover: real): (p: real)
    requires turnover != 0.0
    ensures p * turnover == 100.0 * sum
  {
    (sum / turnover) * 100.0
  }

  /** The unrounded percentage of the turnover the six components make up;
      `None` is the division by a zero turnover. */
  function PercentOf(q: Request, a: Amounts): (r: Option<real>)
    ensures r.Some? <==> Turnover(q) != 0.0
    ensures r.Some? ==> r.value * Turnover(q) == 100.0 * ComponentSum(a)
  {
    if Turnover(q) != 0.0 then Some(Percent(ComponentSum(a), Turnover(q))) else None
  }

  /** The brokerage percentage of a scraped quote, or `None` when a decode
      fails or the division raises. */
  function BrokeragePercentage(q: Request, s: Scrape): (r: Option<real>)
    ensures r.Some? <==> Decodes(s) && Turnover(q) != 0.0
    ensures r.Some? ==> r == PercentOf(q, DecodeScrape(s).value)
  {
    match DecodeScrape(s)
    case None => None
    case Some(a) => PercentOf(q, a)
  }

  /** Column names of the result map, in insertion order. */
  const ChargeKeys: seq<string> := [
    "BROKERAGE", "STT_TOTAL", "EXCHANGE_TXN_Charge", "GST", "SEBI_CHARGES",
    "STAMP DUTY", "TOTAL TAX AND CHARGES", "POINTS TO BREAKEVEN", "TOTAL BROKERAGE",
    "BROKERAGE %"]

  /** Dictionary lookup in an insertion-ordered list of entries. */
  function Lookup<V>(items: seq<(string, V)>, key: string): (r: Option<V>)
    ensures r.None? <==> forall i :: 0 <= i < |items| ==> items[i].0 != key
  {
    if |items| == 0 then None
    else if items[0].0 == key then Some(items[0].1)
    else Lookup(items[1..], key)
  }

  /** With distinct keys, looking a key up finds the entry that carries it. */
  lemma {:induction false} LookupAt<V>(items: seq<(string, V)>, i: nat)
    requires i < |items|
    requires forall j, k :: 0 <= j < k < |items| ==> items[j].0 != items[k].0
    ensures Lookup(items, items[i].0) == Some(items[i].1)
  {
    if i > 0 {
      LookupAt(items[1..], i - 1);
    }
  }

  lemma ChargeKeysDistinct()
    ensures forall j, k :: 0 <= j < k < |ChargeKeys| ==> ChargeKeys[j] != ChargeKeys[k]
  {
  }

  /** The result dictionary of a successful quote, in insertion order. */
  function ResultMap(s: Scrape, percentText: string): seq<(string, string)> {
    [("BROKERAGE", s.brokerage), ("STT_TOTAL", s.stt), ("EXCHANGE_TXN_Charge", s.exchange),
     ("GST", s.gst), ("SEBI_CHARGES", s.sebi), ("STAMP DUTY", s.stamp),
     ("TOTAL TAX AND CHARGES", s.total), ("POINTS TO BREAKEVEN", s.breakEven),
     ("TOTAL BROKERAGE", s.total), ("BROKERAGE %", percentText)]
  }

  /** `calculate_brokerage`: the result map, or `None` for every failure
      (the function swallows the exception and returns nothing).
      `render` is Python's `round(p, 3)` followed by `str`. */
  function CalculateBrokerage(q: Request, scraped: Option<Scrape>, render: real -> string)
    : (r: Option<seq<(string, string)>>)
    ensures r.Some? <==> scraped.Some? && Decodes(scraped.value) && Turnover(q) != 0.0
    ensures r.Some? ==>
      r.value == ResultMap(scraped.value, render(BrokeragePercentage(q, scraped.value).value) + "%")
  {
    match scraped
    case None => None
    case Some(s) =>
      match BrokeragePercentage(q, s)
      case None => None
      case Some(p) => Some(ResultMap(s, render(p) + "%"))
  }

  /** The result map's keys are the ten column names, in insertion order. */
  lemma ResultMapKeys(s: Scrape, percentText: string)
    ensures |ResultMap(s, percentText)| == |ChargeKeys|
    ensures forall i :: 0 <= i < |ChargeKeys| ==> ResultMap(s, percentText)[i].0 == ChargeKeys[i]
    ensures forall j, k :: 0 <= j < k < |ChargeKeys| ==>
      ResultMap(s, percentText)[j].0 != ResultMap(s, percentText)[k].0
  {
    ChargeKeysDistinct();
  }

  /** Looked up by name, each of the six component columns and the break-even
      column carries its scraped string unchanged. */
  lemma {:induction false} ResultComponents(q: Request, s: Scrape, render: real -> string)
    requires CalculateBrokerage(q, Some(s), render).Some?
    ensures var m := CalculateBrokerage(q, Some(s), render).value;
            && Lookup(m, "BROKERAGE") == Some(s.brokerage)
            && Lookup(m, "STT_TOTAL") == Some(s.stt)
            && Lookup(m, "EXCHANGE_TXN_Charge") == Some(s.exchange)
            && Lookup(m, "GST") == Some(s.gst)
            && Lookup(m, "SEBI_CHARGES") == Some(s.sebi)
            && Lookup(m, "STAMP DUTY") == Some(s.stamp)
            && Lookup(m, "POINTS TO BREAKEVEN") == Some(s.breakEven)
  {
    var m := CalculateBrokerage(q, Some(s), render).value;
    ResultMapKeys(s, render(BrokeragePercentage(q, s).value) + "%");
    LookupAt(m, 0);
    LookupAt(m, 1);
    LookupAt(m, 2);
    LookupAt(m, 3);
    LookupAt(m, 4);
    LookupAt(m, 5);
    LookupAt(m, 7);
  }

  /** Looked up by name, the two total columns carry the same scraped string,
      and the percentage column is the rendered percentage with a `%`. */
  lemma {:induction false} ResultColumns(q: Request, s: Scrape, render: real -> string)
    requires CalculateBrokerage(q, Some(s), render).Some?
    ensures var m := CalculateBrokerage(q, Some(s), render).value;
            && Lookup(m, "TOTAL TAX AND CHARGES") == Some(s.total)
            && Lookup(m, "TOTAL BROKERAGE") == Some(s.total)
            && Lookup(m, "BROKERAGE %") == Some(render(BrokeragePercentage(q, s).value) + "%")
  {
    var m := CalculateBrokerage(q, Some(s), render).value;
    ResultMapKeys(s, render(BrokeragePercentage(q, s).value) + "%");
    LookupAt(m, 6);
    LookupAt(m, 8);
    LookupAt(m, 9);
  }

  /** The scraped total takes no part in the percentage: replacing it by any
      other decodable string leaves the percentage unchanged. */
  lemma PercentageIgnoresTotal(q: Request, s: Scrape, t: string)
    requires CleanValue(s.total).Some? && CleanValue(t).Some?
    ensures BrokeragePercentage(q, s.(total := t)) == BrokeragePercentage(q, s)
  {
    if Decodes(s) {
      assert ComponentSum(DecodeScrape(s.(total := t)).value) == ComponentSum(DecodeScrape(s).value);
    }
  }

  /** But a total that does not decode still makes the whole quote fail. */
  lemma UndecodableTotalFails(q: Request, s: Scrape, render: real -> string)
    requires CleanValue(s.total).None?
    ensures CalculateBrokerage(q, Some(s), render).None?
  {
  }

  /** Zero turnover is a division by zero: no result, whatever was scraped. */
  lemma ZeroTurnoverFails(q: Request, scraped: Option<Scrape>, render: real -> string)
    requires q.buy + q.sell == 0.0 || q.totalLotSize == 0
    ensures CalculateBrokerage(q, scraped, render).None?
  {
    ZeroFactor(q.buy + q.sell, q.totalLotSize as real);
    assert Turnover(q) == 0.0;
  }

  lemma ZeroFactor(x: real, y: real)
    requires x == 0.0 || y == 0.0
    ensures x * y == 0.0
  {
  }

  /** A quote whose every component shows a non-negative amount and whose
      turnover is positive yields a non-negative percentage. */
  lemma PercentageNonNegative(q: Request, s: Scrape)
    requires Decodes(s) && Turnover(q) > 0.0
    requires CleanValue(s.brokerage).value >= 0.0 && CleanValue(s.stt).value >= 0.0
    requires CleanValue(s.exchange).value >= 0.0 && CleanValue(s.gst).value >= 0.0
    requires CleanValue(s.sebi).value >= 0.0 && CleanValue(s.stamp).value >= 0.0
    ensures BrokeragePercentage(q, s).Some? && BrokeragePercentage(q, s).value >= 0.0
  {
    var a := DecodeScrape(s).value;
    PercentNonNegative(q, a);
  }

  lemma PercentNonNegative(q: Request, a: Amounts)
    requires Turnover(q) > 0.0 && ComponentSum(a) >= 0.0
    ensures PercentOf(q, a).Some? && PercentOf(q, a).value >= 0.0
  {
    var p := PercentOf(q, a).value;
    if p < 0.0 {
      assert p * Turnover(q) < 0.0;
    }
  }

  /** A quote decodes to given amounts exactly when each of its seven
      strings decodes to the matching amount. */
  lemma DecodeScrapeIs(s: Scrape, a: Amounts)
    ensures DecodeScrape(s) == Some(a) <==>
      && CleanValue(s.brokerage) == Some(a.brokerage) && CleanValue(s.stt) == Some(a.stt)
      && CleanValue(s.exchange) == Some(a.exchange) && CleanValue(s.gst) == Some(a.gst)
      && CleanValue(s.sebi) == Some(a.sebi) && CleanValue(s.stamp) == Some(a.stamp)
      && CleanValue(s.total) == Some(a.total)
  {
    if DecodeScrape(s) == Some(a) {
      assert Decodes(s);
    }
  }

  /** A quote fails to decode exactly when one of its seven strings does. */
  lemma DecodeScrapeFails(s: Scrape)
    ensures DecodeScrape(s).None? <==> !Decodes(s)
  {
  }

  /** A worked quote: 2 lots of 50 bought at 100 and sold at 105 turn over
      (100 + 105) * 100 = 20500, so charges of 50 rupees are 100 * 50 / 20500
      percent of it. */
  lemma WorkedQuote(s: Scrape)
    requires DecodeScrape(s).Some? && ComponentSum(DecodeScrape(s).value) == 50.0
    ensures BrokeragePercentage(Request(50, 100, 100.0, 105.0), s) == Some(100.0 * 50.0 / 20500.0)
  {
    var q := Request(50, 100, 100.0, 105.0);
    assert Turnover(q) == 20500.0;
    var p := PercentOf(q, DecodeScrape(s).value).value;
    assert p * 20500.0 == 5000.0;
  }
}
