/** The two handlers of the page: the Convert button and the table of all currencies. Each
    decides between the live service and the offline rates; the page's rendering is left out,
    so each handler yields what it would render and the calls it makes, in order. */
module Fallback {
  import opened Wrappers
  import opened Currencies
  import opened OfflineConverter
  import opened LiveRates

  /** A call a handler makes into the conversion helpers. */
  datatype Call =
    | ConvertViaApi(amount: real, frm: Code, to: Code)  // the convert endpoint, reached through `try_live_convert`
    | FetchLatestRates(base: Code)                      // the latest-rates endpoint, reached through `try_live_table`
    | OfflineCall(amount: real, frm: Code, to: Code)    // `offline_convert`

  /** What a handler renders, with the calls it made to get there. */
  datatype Flow<R> = Flow(report: R, calls: seq<Call>)

  /** The caption under a live result: the rate and the body's date. */
  datatype RateCaption = RateCaption(rate: real, date: Option<string>)

  /** What the Convert button renders. */
  datatype ConvertReport =
    | OfflineOnlyResult(converted: real)                         // "(offline rates)" in offline-only mode
    | OfflineOnlyFailed(error: ConvertError)                     // "Offline conversion failed"
    | LiveResult(converted: real, caption: Option<RateCaption>)  // "(live rates)", with a caption when the rate is set
    | FallbackResult(converted: real)                            // the fallback warning, then "(offline rates)"
    | BothFailed(error: ConvertError)                            // "Both live and offline conversion failed"

  /** What the table of all currencies renders. */
  datatype TableReport =
    | OfflineTable(rows: seq<OfflineRow>)                           // offline-only mode
    | LiveTableShown(date: Option<string>, liveRows: seq<LiveRow>)  // the live rows and their date
    | FallbackTable(rows: seq<OfflineRow>)                          // the fallback warning, then the offline rows
    | TableCrashed(error: ConvertError)                             // an offline lookup raised out of the handler

  /** What the live branch of the Convert button reads from an accepted body before it renders. */
  datatype LiveReading = LiveReading(converted: real, rate: Option<real>, date: Option<string>)

  /** The live branch of the Convert button up to rendering: `try_live_convert`, then the body's
      `result`, `info.rate` (a missing `info` reads as the empty map; a null one raises) and `date`. */
  function LiveAttempt(live: LiveOutcome<ConvertResponse>): (r: Result<LiveReading, LiveError>)
    ensures r.Ok? <==> live.Fetched? && live.data.result.Some? && !live.data.info.InfoNull?
    ensures live.FetchFailed? ==> r == Err(RequestFailed)
    ensures live.Fetched? && live.data.result.None? ==> r == Err(NoResult)
    ensures live.Fetched? && live.data.result.Some? && live.data.info.InfoNull? ==> r == Err(InfoNotAMap)
    ensures r.Ok? ==> r.value.converted == live.data.result.value && r.value.date == live.data.date
    ensures r.Ok? ==> r.value.rate == (if live.data.info.Info? then live.data.info.rate else None)
  {
    match TryLiveConvert(live)
    case Err(e) => Err(e)
    case Ok(data) =>
      match data.info
      case InfoNull => Err(InfoNotAMap)
      case InfoMissing => Ok(LiveReading(data.result.value, None, data.date))
      case Info(rate) => Ok(LiveReading(data.result.value, rate, data.date))
  }

  /** The caption of a live result appears only when the rate is present and truthy, that is non-zero. */
  function Caption(rate: Option<real>, date: Option<string>): (c: Option<RateCaption>)
    ensures c.Some? <==> rate.Some? && rate.value != 0.0
    ensures c.Some? ==> c.value == RateCaption(rate.value, date)
  {
    if rate.Some? && rate.value != 0.0 then Some(RateCaption(rate.value, date)) else None
  }

  /** The Convert button: offline only when asked to, otherwise live first and offline on
      any live failure. `live` is what the convert endpoint answers for this request. */
  function ConvertFlow(offlineOnly: bool, amount: real, frm: Code, to: Code, live: LiveOutcome<ConvertResponse>): Flow<ConvertReport>
  {
    if offlineOnly then
      var report := match OfflineConvert(amount, frm, to)
        case Ok(v) => OfflineOnlyResult(v)
        case Err(e) => OfflineOnlyFailed(e);
      Flow(report, [OfflineCall(amount, frm, to)])
    else
      match LiveAttempt(live)
      case Ok(reading) =>
        Flow(LiveResult(reading.converted, Caption(reading.rate, reading.date)), [ConvertViaApi(amount, frm, to)])
      case Err(_) =>
        var report := match OfflineConvert(amount, frm, to)
          case Ok(v) => FallbackResult(v)
          case Err(e) => BothFailed(e);
        Flow(report, [ConvertViaApi(amount, frm, to), OfflineCall(amount, frm, to)])
  }

  /** The `offline_convert` calls of the loop that builds the offline table, one per code the
      loop converts into. */
  function OfflineTableCalls(amount: real, frm: Code): (calls: seq<Call>)
    ensures forall c :: c in calls ==> c.OfflineCall?
  {
    var attempts := OfflineAttempts(amount, frm, CURRENCIES);
    seq(|attempts|, i requires 0 <= i < |attempts| => OfflineCall(amount, frm, attempts[i]))
  }

  /** The table of all currencies: offline only when asked to, otherwise the live table and the
      offline table on any live failure. `live` is what the latest-rates endpoint answers for `frm`. */
  function TableFlow(offlineOnly: bool, amount: real, frm: Code, live: LiveOutcome<LatestResponse>): Flow<TableReport>
  {
    if offlineOnly then
      var report := match OfflineRows(amount, frm, CURRENCIES)
        case Ok(rows) => OfflineTable(rows)
        case Err(e) => TableCrashed(e);
      Flow(report, OfflineTableCalls(amount, frm))
    else
      match LiveTableFor(amount, frm, live)
      case Ok(t) => Flow(LiveTableShown(t.date, t.rows), [FetchLatestRates(frm)])
      case Err(_) =>
        var report := match OfflineRows(amount, frm, CURRENCIES)
          case Ok(rows) => FallbackTable(rows)
          case Err(e) => TableCrashed(e);
        Flow(report, [FetchLatestRates(frm)] + OfflineTableCalls(amount, frm))
  }

  /** No call in `calls` reaches the rate service. */
  predicate NoLiveCall(calls: seq<Call>) {
    forall i :: 0 <= i < |calls| ==> calls[i].OfflineCall?
  }

  /** Offline-only mode makes exactly one call, to the offline converter, and reports its result
      or its failure; what the service would have answered makes no difference. */
  lemma ConvertOfflineOnly(amount: real, frm: Code, to: Code, live: LiveOutcome<ConvertResponse>, other: LiveOutcome<ConvertResponse>)
    ensures ConvertFlow(true, amount, frm, to, live).calls == [OfflineCall(amount, frm, to)]
    ensures NoLiveCall(ConvertFlow(true, amount, frm, to, live).calls)
    ensures ConvertFlow(true, amount, frm, to, live) == ConvertFlow(true, amount, frm, to, other)
    ensures OfflineConvert(amount, frm, to).Ok? ==>
      ConvertFlow(true, amount, frm, to, live).report == OfflineOnlyResult(OfflineConvert(amount, frm, to).value)
    ensures OfflineConvert(amount, frm, to).Err? ==>
      ConvertFlow(true, amount, frm, to, live).report == OfflineOnlyFailed(OfflineConvert(amount, frm, to).error)
  {
  }

  /** Otherwise a live success (a body with a `result` and an `info` that is not null) is reported
      with the service's `result`, its rate caption, and no offline call. */
  lemma ConvertLiveSuccess(amount: real, frm: Code, to: Code, live: LiveOutcome<ConvertResponse>)
    requires live.Fetched? && live.data.result.Some? && !live.data.info.InfoNull?
    ensures ConvertFlow(false, amount, frm, to, live).calls == [ConvertViaApi(amount, frm, to)]
    ensures var rate := if live.data.info.Info? then live.data.info.rate else None;
      ConvertFlow(false, amount, frm, to, live).report
        == LiveResult(live.data.result.value, Caption(rate, live.data.date))
  {
  }

  /** A live failure (the request failed, `result` is missing or null, or `info` is null) leads
      to exactly one offline call after the live one; its result is reported as a fallback, and
      its failure as the failure of both. */
  lemma ConvertLiveFailure(amount: real, frm: Code, to: Code, live: LiveOutcome<ConvertResponse>)
    requires live.FetchFailed? || live.data.result.None? || live.data.info.InfoNull?
    ensures ConvertFlow(false, amount, frm, to, live).calls == [ConvertViaApi(amount, frm, to), OfflineCall(amount, frm, to)]
    ensures OfflineConvert(amount, frm, to).Ok? ==>
      ConvertFlow(false, amount, frm, to, live).report == FallbackResult(OfflineConvert(amount, frm, to).value)
    ensures OfflineConvert(amount, frm, to).Err? ==>
      ConvertFlow(false, amount, frm, to, live).report == BothFailed(OfflineConvert(amount, frm, to).error)
  {
  }

  /** For two listed currencies a failed live attempt always ends in the offline amount, marked as
      offline; the failure of both cannot happen. */
  lemma ConvertFallbackForListedCurrencies(amount: real, frm: Code, to: Code, live: LiveOutcome<ConvertResponse>)
    requires frm in CURRENCIES && to in CURRENCIES
    requires live.FetchFailed? || live.data.result.None? || live.data.info.InfoNull?
    ensures OfflineConvert(amount, frm, to).Ok?
    ensures ConvertFlow(false, amount, frm, to, live).report == FallbackResult(OfflineConvert(amount, frm, to).value)
  {
    CurrenciesHaveRates();
  }

  /** A body with a `result` but a null `info` is a live failure: the rate lookup raises and the
      button reports the offline amount as a fallback. */
  lemma NullInfoFallsBack(amount: real, date: Option<string>)
    ensures ConvertFlow(false, amount, "USD", "PKR", Fetched(ConvertResponse(Some(280.0), InfoNull, date))).report
         == FallbackResult(OfflineConvert(amount, "USD", "PKR").value)
  {
    ConvertFallbackForListedCurrencies(amount, "USD", "PKR", Fetched(ConvertResponse(Some(280.0), InfoNull, date)));
  }

  /** Which kind of report the button gives depends only on the mode and on how the two attempts went. */
  lemma ConvertReportKinds(offlineOnly: bool, amount: real, frm: Code, to: Code, live: LiveOutcome<ConvertResponse>)
    ensures var r := ConvertFlow(offlineOnly, amount, frm, to, live).report;
      && ((r.OfflineOnlyResult? || r.OfflineOnlyFailed?) <==> offlineOnly)
      && (r.LiveResult? <==> !offlineOnly && LiveAttempt(live).Ok?)
      && (r.FallbackResult? <==> !offlineOnly && LiveAttempt(live).Err? && OfflineConvert(amount, frm, to).Ok?)
      && (r.BothFailed? <==> !offlineOnly && LiveAttempt(live).Err? && OfflineConvert(amount, frm, to).Err?)
  {
  }

  /** With a known base currency the offline table loop calls the converter once per listed
      currency, in list order. */
  lemma OfflineTableCallsKnownBase(amount: real, frm: Code)
    requires frm in OFFLINE_RATES
    ensures |OfflineTableCalls(amount, frm)| == |CURRENCIES| == 26
    ensures forall i :: 0 <= i < |CURRENCIES| ==> OfflineTableCalls(amount, frm)[i] == OfflineCall(amount, frm, CURRENCIES[i])
  {
    CurrencyListShape();
    CurrenciesHaveRates();
    OfflineAttemptsKnownBase(amount, frm, CURRENCIES);
  }

  /** With an unknown base currency the offline table loop makes a single call, for the first
      listed currency, which raises. */
  lemma OfflineTableCallsUnknownBase(amount: real, frm: Code)
    requires frm !in OFFLINE_RATES
    ensures OfflineTableCalls(amount, frm) == [OfflineCall(amount, frm, "USD")]
  {
    OfflineAttemptsUnknownBase(amount, frm, CURRENCIES);
  }

  /** Offline-only mode never reaches the rate service, and for a listed base currency shows 26
      offline rows in list order, the base row holding the amount unchanged. */
  lemma TableOfflineOnly(amount: real, frm: Code, live: LiveOutcome<LatestResponse>, other: LiveOutcome<LatestResponse>)
    ensures NoLiveCall(TableFlow(true, amount, frm, live).calls)
    ensures TableFlow(true, amount, frm, live) == TableFlow(true, amount, frm, other)
    ensures frm in CURRENCIES ==>
      var r := TableFlow(true, amount, frm, live).report;
      r.OfflineTable? && |r.rows| == |CURRENCIES| == 26 &&
      (forall i :: 0 <= i < |CURRENCIES| ==>
         r.rows[i] == OfflineRow(CURRENCIES[i], OfflineConvert(amount, frm, CURRENCIES[i]).value)) &&
      (forall i :: 0 <= i < |CURRENCIES| && CURRENCIES[i] == frm ==> r.rows[i].amount == amount)
  {
    var calls := TableFlow(true, amount, frm, live).calls;
    assert forall i :: 0 <= i < |calls| ==> calls[i] in calls;
    if frm in CURRENCIES {
      CurrenciesHaveRates();
      OfflineTableShape(amount, frm);
      forall i | 0 <= i < |CURRENCIES| && CURRENCIES[i] == frm
        ensures TableFlow(true, amount, frm, live).report.rows[i].amount == amount
      {
        OfflineSameCurrency(amount, frm);
      }
    }
  }

  /** A live table is shown as it is, with its date, after one call to the service. */
  lemma TableLiveSuccess(amount: real, frm: Code, data: LatestResponse)
    requires !data.rates.RatesNull?
    ensures TableFlow(false, amount, frm, Fetched(data)).calls == [FetchLatestRates(frm)]
    ensures var r := TableFlow(false, amount, frm, Fetched(data)).report;
      r.LiveTableShown? && r.date == data.date && |r.liveRows| == |CURRENCIES| &&
      forall i :: 0 <= i < |CURRENCIES| ==>
        r.liveRows[i] == LiveRow(CURRENCIES[i], RowAmount(amount, frm, RatesOrEmpty(data.rates), CURRENCIES[i]))
  {
    LiveTableShape(amount, frm, data);
  }

  /** When the live table fails (the request failed, or `rates` is null), the service was asked
      once and, for a listed base currency, the 26 offline rows are shown as the fallback. */
  lemma TableLiveFailure(amount: real, frm: Code, live: LiveOutcome<LatestResponse>)
    requires live.FetchFailed? || live.data.rates.RatesNull?
    ensures TableFlow(false, amount, frm, live).calls == [FetchLatestRates(frm)] + OfflineTableCalls(amount, frm)
    ensures frm in CURRENCIES ==>
      var r := TableFlow(false, amount, frm, live).report;
      r.FallbackTable? && |r.rows| == |CURRENCIES| &&
      forall i :: 0 <= i < |CURRENCIES| ==>
        r.rows[i] == OfflineRow(CURRENCIES[i], OfflineConvert(amount, frm, CURRENCIES[i]).value)
  {
    if live.Fetched? {
      LiveTableNullRatesFails(amount, frm, live.data.date);
      assert live == Fetched(LatestResponse(RatesNull, live.data.date));
    }
    if frm in CURRENCIES {
      CurrenciesHaveRates();
      OfflineTableShape(amount, frm);
    }
  }

  /** An unknown base currency makes every offline table raise out of the handler. */
  lemma TableUnknownBase(offlineOnly: bool, amount: real, frm: Code, live: LiveOutcome<LatestResponse>)
    requires frm !in OFFLINE_RATES
    requires offlineOnly || LiveTableFor(amount, frm, live).Err?
    ensures TableFlow(offlineOnly, amount, frm, live).report == TableCrashed(UnknownCurrency(frm))
  {
    OfflineTableShape(amount, frm);
  }
}
