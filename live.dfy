/** The live side: the responses of the two endpoints of the rate service, the check on the
    convert endpoint's result, and the loop that turns the latest rates into a table. */
module LiveRates {
  import opened Wrappers
  import opened Currencies

  /** What one of the two HTTP helpers produced: the decoded JSON body, or a failure
      (network error, timeout, an HTTP error status, a body that does not decode). */
  datatype LiveOutcome<T> = Fetched(data: T) | FetchFailed

  /** The `info` field of the convert endpoint's body: missing (read as the empty map), present
      but null, or a map whose `rate` entry is `None` when it is missing or null. */
  datatype InfoField = InfoMissing | InfoNull | Info(rate: Option<real>)

  /** The fields of the convert endpoint's body that are read: `result`, `info` and `date`.
      For `result` and `date`, a field that is missing and a field that is null are both `None`. */
  datatype ConvertResponse = ConvertResponse(result: Option<real>, info: InfoField, date: Option<string>)

  /** The `rates` field of the latest-rates body: missing (read as the empty map), present but
      null, or a map from currency code to rate. A code whose rate is null reads exactly like
      a code that is absent, so the map holds only the numeric rates. */
  datatype RatesField = RatesMissing | RatesNull | Rates(table: map<Code, real>)

  /** The fields of the latest-rates body that are read. */
  datatype LatestResponse = LatestResponse(rates: RatesField, date: Option<string>)

  /** Why a live attempt failed. */
  datatype LiveError =
    | RequestFailed   // the HTTP helper raised
    | NoResult        // the convert body's `result` is missing or null
    | RatesNotAMap    // the latest-rates body's `rates` is null, so looking a code up in it raises
    | InfoNotAMap     // the convert body's `info` is null, so reading its rate raises

  /** `try_live_convert`: a fetched body is accepted unchanged unless its `result` is missing or null. */
  function TryLiveConvert(live: LiveOutcome<ConvertResponse>): (r: Result<ConvertResponse, LiveError>)
    ensures r.Ok? <==> live.Fetched? && live.data.result.Some?
    ensures r.Ok? ==> r.value == live.data
    ensures live.FetchFailed? ==> r == Err(RequestFailed)
    ensures live.Fetched? && live.data.result.None? ==> r == Err(NoResult)
  {
    match live
    case FetchFailed => Err(RequestFailed)
    case Fetched(data) => if data.result.None? then Err(NoResult) else Ok(data)
  }

  /** One row of the live table: a currency and the converted amount, or `None` for "N/A". */
  datatype LiveRow = LiveRow(currency: Code, amount: Option<real>)

  /** The result of `try_live_table`: the body's date and the rows. */
  datatype LiveTable = LiveTable(date: Option<string>, rows: seq<LiveRow>)

  /** An amount converted at a live rate (target units per unit of the base). */
  function AtRate(amount: real, rate: real): real
  {
    amount * rate
  }

  /** The amount shown for `cur` when `rates` is a map (a missing field reads as the empty map):
      the base currency keeps the amount, a code without a rate is unavailable, any other code
      gets the amount times its rate. */
  function RowAmount(amount: real, frm: Code, rates: map<Code, real>, cur: Code): Option<real>
  {
    if cur == frm then Some(amount)
    else if cur !in rates then None
    else Some(AtRate(amount, rates[cur]))
  }

  /** The amount of the row for `cur`, the way the loop body computes it. With null `rates`,
      looking up a code other than the base raises. */
  function LookupRow(amount: real, frm: Code, rates: RatesField, cur: Code): Result<Option<real>, LiveError>
  {
    if cur == frm then Ok(Some(amount))
    else match rates
      case RatesNull => Err(RatesNotAMap)
      case RatesMissing => Ok(None)
      case Rates(m) => Ok(if cur in m then Some(AtRate(amount, m[cur])) else None)
  }

  /** The rows the loop appends for `codes`, in order; the first lookup that raises aborts it. */
  function LiveRows(amount: real, frm: Code, rates: RatesField, codes: seq<Code>): Result<seq<LiveRow>, LiveError>
  {
    if codes == [] then Ok([])
    else
      match LiveRows(amount, frm, rates, codes[..|codes| - 1])
      case Err(e) => Err(e)
      case Ok(rows) =>
        match LookupRow(amount, frm, rates, codes[|codes| - 1])
        case Err(e) => Err(e)
        case Ok(val) => Ok(rows + [LiveRow(codes[|codes| - 1], val)])
  }

  /** What `try_live_table` returns for the outcome of fetching the latest rates for `frm`. */
  function LiveTableFor(amount: real, frm: Code, live: LiveOutcome<LatestResponse>): Result<LiveTable, LiveError>
  {
    match live
    case FetchFailed => Err(RequestFailed)
    case Fetched(data) =>
      match LiveRows(amount, frm, data.rates, CURRENCIES)
      case Err(e) => Err(e)
      case Ok(rows) => Ok(LiveTable(data.date, rows))
  }

  /** The map the rows read a rate from: the empty map when the field is missing. */
  function RatesOrEmpty(rates: RatesField): map<Code, real>
    requires !rates.RatesNull?
  {
    if rates.RatesMissing? then map[] else rates.table
  }

  /** Unless `rates` is null, the lookup never raises and yields the amount of `RowAmount`. */
  lemma LookupRowAmount(amount: real, frm: Code, rates: RatesField, cur: Code)
    requires !rates.RatesNull?
    ensures LookupRow(amount, frm, rates, cur) == Ok(RowAmount(amount, frm, RatesOrEmpty(rates), cur))
  {
    if cur != frm {
      match rates
      case RatesMissing =>
        assert RatesOrEmpty(rates) == map[];
      case Rates(m) =>
        assert RatesOrEmpty(rates) == m;
    }
  }

  /** Unless `rates` is null, every code gets one row, in order, with the amount of `RowAmount`. */
  lemma {:induction false} LiveRowsComplete(amount: real, frm: Code, rates: RatesField, codes: seq<Code>)
    requires !rates.RatesNull?
    ensures LiveRows(amount, frm, rates, codes).Ok?
    ensures |LiveRows(amount, frm, rates, codes).value| == |codes|
    ensures forall i :: 0 <= i < |codes| ==>
      LiveRows(amount, frm, rates, codes).value[i]
        == LiveRow(codes[i], RowAmount(amount, frm, RatesOrEmpty(rates), codes[i]))
  {
    if codes != [] {
      var init := codes[..|codes| - 1];
      LiveRowsComplete(amount, frm, rates, init);
      LookupRowAmount(amount, frm, rates, codes[|codes| - 1]);
      assert forall i :: 0 <= i < |init| ==> init[i] == codes[i];
    }
  }

  /** The only way the loop raises is a lookup in null `rates`. */
  lemma {:induction false} LiveRowsErrors(amount: real, frm: Code, rates: RatesField, codes: seq<Code>)
    ensures LiveRows(amount, frm, rates, codes).Err? ==>
      rates.RatesNull? && LiveRows(amount, frm, rates, codes).error == RatesNotAMap
  {
    if codes != [] {
      LiveRowsErrors(amount, frm, rates, codes[..|codes| - 1]);
    }
  }

  /** With null `rates`, a list holding some code other than the base makes the loop raise. */
  lemma {:induction false} LiveRowsNullRates(amount: real, frm: Code, codes: seq<Code>, k: nat)
    requires k < |codes| && codes[k] != frm
    ensures LiveRows(amount, frm, RatesNull, codes) == Err(RatesNotAMap)
  {
    var init := codes[..|codes| - 1];
    if k < |codes| - 1 {
      assert init[k] == codes[k];
      LiveRowsNullRates(amount, frm, init, k);
    } else {
      LiveRowsErrors(amount, frm, RatesNull, init);
    }
  }

  /** A fetched body whose `rates` is not null yields a table with the body's date and exactly one
      row per listed currency, in list order: the base row holds the amount unchanged, a code
      without a rate holds `None`, any other code the amount times its rate. */
  lemma LiveTableShape(amount: real, frm: Code, data: LatestResponse)
    requires !data.rates.RatesNull?
    ensures LiveTableFor(amount, frm, Fetched(data)).Ok?
    ensures LiveTableFor(amount, frm, Fetched(data)).value.date == data.date
    ensures |LiveTableFor(amount, frm, Fetched(data)).value.rows| == |CURRENCIES| == 26
    ensures forall i :: 0 <= i < |CURRENCIES| ==>
      LiveTableFor(amount, frm, Fetched(data)).value.rows[i].currency == CURRENCIES[i]
    ensures forall i :: 0 <= i < |CURRENCIES| ==>
      LiveTableFor(amount, frm, Fetched(data)).value.rows[i].amount
        == RowAmount(amount, frm, RatesOrEmpty(data.rates), CURRENCIES[i])
  {
    CurrencyListShape();
    LiveRowsComplete(amount, frm, data.rates, CURRENCIES);
  }

  /** The rows of a live table are labelled with pairwise different codes. */
  lemma LiveTableLabelsDistinct(amount: real, frm: Code, data: LatestResponse)
    requires !data.rates.RatesNull?
    ensures LiveTableFor(amount, frm, Fetched(data)).Ok?
    ensures |LiveTableFor(amount, frm, Fetched(data)).value.rows| == |CURRENCIES|
    ensures forall i, j :: 0 <= i < j < |CURRENCIES| ==>
      LiveTableFor(amount, frm, Fetched(data)).value.rows[i].currency
        != LiveTableFor(amount, frm, Fetched(data)).value.rows[j].currency
  {
    CurrencyListShape();
    LiveTableShape(amount, frm, data);
  }

  /** The row of the base currency holds the amount unchanged, whatever the rates say. */
  lemma LiveTableBaseRow(amount: real, frm: Code, data: LatestResponse, i: nat)
    requires !data.rates.RatesNull?
    requires i < |CURRENCIES| && CURRENCIES[i] == frm
    ensures LiveTableFor(amount, frm, Fetched(data)).Ok?
    ensures |LiveTableFor(amount, frm, Fetched(data)).value.rows| == |CURRENCIES|
    ensures LiveTableFor(amount, frm, Fetched(data)).value.rows[i] == LiveRow(frm, Some(amount))
  {
    LiveTableShape(amount, frm, data);
  }

  /** A code other than the base holds `None` when the rates do not list it, and otherwise
      the amount times its rate. */
  lemma LiveTableOtherRow(amount: real, frm: Code, m: map<Code, real>, date: Option<string>, i: nat)
    requires i < |CURRENCIES| && CURRENCIES[i] != frm
    ensures LiveTableFor(amount, frm, Fetched(LatestResponse(Rates(m), date))).Ok?
    ensures |LiveTableFor(amount, frm, Fetched(LatestResponse(Rates(m), date))).value.rows| == |CURRENCIES|
    ensures var row := LiveTableFor(amount, frm, Fetched(LatestResponse(Rates(m), date))).value.rows[i];
      row.currency == CURRENCIES[i] &&
      (row.amount.None? <==> CURRENCIES[i] !in m) &&
      (row.amount.Some? ==> row.amount.value == amount * m[CURRENCIES[i]])
  {
    LiveTableShape(amount, frm, LatestResponse(Rates(m), date));
  }

  /** A body without a `rates` field leaves every row except the base row unavailable. */
  lemma LiveTableWithoutRates(amount: real, frm: Code, date: Option<string>, i: nat)
    requires i < |CURRENCIES| && CURRENCIES[i] != frm
    ensures LiveTableFor(amount, frm, Fetched(LatestResponse(RatesMissing, date))).Ok?
    ensures |LiveTableFor(amount, frm, Fetched(LatestResponse(RatesMissing, date))).value.rows| == |CURRENCIES|
    ensures LiveTableFor(amount, frm, Fetched(LatestResponse(RatesMissing, date))).value.rows[i]
         == LiveRow(CURRENCIES[i], None)
  {
    LiveTableShape(amount, frm, LatestResponse(RatesMissing, date));
  }

  /** A body whose `rates` is null makes the table fail, whichever base was asked for,
      because the list holds more than one code. */
  lemma LiveTableNullRatesFails(amount: real, frm: Code, date: Option<string>)
    ensures LiveTableFor(amount, frm, Fetched(LatestResponse(RatesNull, date))) == Err(RatesNotAMap)
  {
    if frm == CURRENCIES[0] {
      LiveRowsNullRates(amount, frm, CURRENCIES, 1);
    } else {
      LiveRowsNullRates(amount, frm, CURRENCIES, 0);
    }
  }

  /** `try_live_table`: fetch the latest rates for `frm` (given here as its outcome) and append
      one row per listed currency. */
  method TryLiveTable(amount: real, frm: Code, live: LiveOutcome<LatestResponse>) returns (r: Result<LiveTable, LiveError>)
    ensures r == LiveTableFor(amount, frm, live)
  {
    if live.FetchFailed? {
      return Err(RequestFailed);
    }
    var data := live.data;
    var rows: seq<LiveRow> := [];
    for i := 0 to |CURRENCIES|
      invariant LiveRows(amount, frm, data.rates, CURRENCIES[..i]) == Ok(rows)
    {
      var cur := CURRENCIES[i];
      var val: Option<real>;
      if cur == frm {
        val := Some(amount);
      } else {
        match data.rates
        case RatesNull =>
          LiveRowsNullRates(amount, frm, CURRENCIES, i);
          return Err(RatesNotAMap);
        case RatesMissing =>
          val := None;
        case Rates(m) =>
          if cur !in m {
            val := None;
          } else {
            val := Some(AtRate(amount, m[cur]));
          }
      }
      assert CURRENCIES[..i + 1][..i] == CURRENCIES[..i];
      assert LookupRow(amount, frm, data.rates, cur) == Ok(val);
      rows := rows + [LiveRow(cur, val)];
    }
    assert CURRENCIES[..|CURRENCIES|] == CURRENCIES;
    r := Ok(LiveTable(data.date, rows));
  }
}
