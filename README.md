# Currency converter: conversion core

A model of the conversion logic of a small currency-converter web page (`app.py`). The page
converts an amount between two of 26 listed currencies. It asks a public rate service first
and falls back to a built-in table of approximate offline rates. It can also show the amount
converted into every listed currency, live or offline. The model has five modules:

- `Wrappers` (wrappers.dfy): `Option` and `Result`.
- `Currencies` (currencies.dfy): the code list `CURRENCIES` and the rate table `OFFLINE_RATES`
  (US dollars per unit). It proves the lemmas that the two agree, that every rate is positive
  and that the dollar rate is 1.
- `OfflineConverter` (offline.dfy): `offline_convert` as `Convert` over any table of positive
  dollar values, and `OfflineConvert` as `Convert` over `OFFLINE_RATES`. Amounts and rates are
  exact `real`s, so identity, linearity, round trip and composition are exact theorems. It also
  has the loop that builds the offline table (`BuildOfflineTable`), proved equal to the
  function `OfflineRows`.
- `LiveRates` (live.dfy): the service's answers as values. `LiveOutcome` is a fetched body or
  a failed request. `ConvertResponse` and `LatestResponse` hold the fields the page reads.
  `TryLiveConvert` models `try_live_convert`. The loop of `try_live_table` is the method
  `TryLiveTable`, proved equal to the function `LiveTableFor`.
- `Fallback` (fallback.dfy): the Convert-button handler (`ConvertFlow`) and the table handler
  (`TableFlow`) as pure functions. Each returns what the handler renders and the list of calls
  it makes, in order. "Never asks the service" and "exactly one offline call" are statements
  about that list.

Behaviour of the code that the model keeps:

- `offline_convert` takes any string as a code. `Convert` reports a code without an offline
  rate as `UnknownCurrency`, checking `frm` before `to`.
- `app.py` never checks the sign of the amount; only the input widget (app.py:38) keeps it
  non-negative. So no conversion requires a non-negative amount, and only
  `ConvertNonNegative` assumes one.
- In `try_live_table`, a body whose `rates` field is present but null raises at the first
  code other than the base. The live table then fails and the handler falls back
  (`LiveTableNullRatesFails`).
- In the Convert handler, a body whose `info` field is present but null makes the rate lookup
  (app.py:106) raise inside the `try`. The handler then warns and shows the offline amount
  (`LiveAttempt`, `NullInfoFallsBack`).
- The offline table loops (app.py:124-126, app.py:139-141) are not inside a `try`. An unknown
  base code would raise out of the handler after one call, which `TableCrashed` records.
  Every listed code has an offline rate (`CurrenciesHaveRates`), and the selectors at
  app.py:40-41 offer only listed codes, so this does not happen from the page.
- The live convert path always calls the service, even when `frm == to`.

## Model

| member | source | states |
|---|---|---|
| Currencies.CurrencyListShape | app.py:7-11 | the list has 26 codes and none repeats |
| Currencies.CurrenciesHaveRates | app.py:7-21 | every listed code has an offline rate |
| Currencies.RatesOnlyForCurrencies | app.py:7-21 | the offline table has no code outside the list |
| Currencies.RatesPositive | app.py:15-21 | every offline rate is positive |
| Currencies.DollarIsUnit | app.py:13-16 | the table is in US dollars: `OFFLINE_RATES["USD"] == 1.0` |
| Currencies.OfflineTableInvariant | app.py:7-21 | the table's keys are exactly the listed codes, all rates positive, USD is 1 |
| OfflineConverter.OfflineRatesPositive | app.py:15-21 | the built-in table may be divided by |
| OfflineConverter.Convert | app.py:60-67 | succeeds exactly when both codes are in the table; reports `frm` when it is unknown, otherwise `to` |
| OfflineConverter.OfflineConvert | app.py:60-67 | the same over the built-in table: fails exactly for a code without an offline rate |
| OfflineConverter.ThroughUsdKeepsValue | app.py:63-66 | the converted amount is worth as many dollars as the original |
| OfflineConverter.ConvertKnown | app.py:63-66 | for known codes the result is the conversion through dollars at their rates |
| OfflineConverter.ConvertFormula | app.py:63-66 | for known codes the result is `amount * rate[frm] / rate[to]` and keeps the dollar value |
| OfflineConverter.ThroughUsdIdentity | app.py:63-66 | through dollars, a unit converted into itself is unchanged |
| OfflineConverter.ConvertSameCurrency | app.py:60-67 | converting a known code into itself returns the amount exactly |
| OfflineConverter.OfflineSameCurrency | app.py:60-67 | the same for every listed code with the built-in rates |
| OfflineConverter.ThroughUsdScales | app.py:63-66 | through dollars, scaling the amount by `k` scales the result by `k` |
| OfflineConverter.ConvertScales | app.py:60-67 | the conversion is linear in the amount: `k * a` gives `k` times the result |
| OfflineConverter.ThroughUsdAdds | app.py:63-66 | through dollars, the conversion of a sum is the sum of the conversions |
| OfflineConverter.ConvertAdds | app.py:60-67 | the conversion is additive in the amount |
| OfflineConverter.ThroughUsdNonNegative | app.py:63-66 | non-negative amount and rates give a non-negative result |
| OfflineConverter.ConvertNonNegative | app.py:38 | a non-negative amount, as the widget allows, converts to a non-negative amount |
| OfflineConverter.ThroughUsdRoundTrip | app.py:63-66 | through dollars, converting back restores the amount |
| OfflineConverter.ConvertRoundTrip | app.py:60-67 | converting `frm` to `to` and back gives `Ok(amount)` |
| OfflineConverter.ThroughUsdCompose | app.py:63-66 | through dollars, a detour through a third unit changes nothing |
| OfflineConverter.ConvertThrough | app.py:60-67 | converting via a third currency equals the direct conversion |
| OfflineConverter.OneDollarInRupees | app.py:16-17 | 1 USD converts to exactly 10000/33 PKR offline |
| OfflineConverter.HundredEurosInYen | app.py:16 | 100 EUR converts to exactly 270000/17 JPY offline |
| OfflineConverter.OfflineRowsComplete | app.py:124-126 | with known codes the loop gives one row per code, in order, holding the converted amount |
| OfflineConverter.OfflineRowsUnknownBase | app.py:124-126 | with an unknown base the loop raises the unknown-code error |
| OfflineConverter.OfflineTableShape | app.py:124-126 | the offline table is 26 rows in list order for a known base, the unknown-code error otherwise |
| OfflineConverter.OfflineAttemptsWhenComplete | app.py:124-126 | a loop that finishes without raising has called `offline_convert` for every code, in order |
| OfflineConverter.OfflineAttemptsKnownBase | app.py:124-126 | with known codes the loop calls `offline_convert` for every code, in order |
| OfflineConverter.OfflineAttemptsUnknownBase | app.py:124-126 | with an unknown base the loop calls `offline_convert` only for the first code, which raises |
| OfflineConverter.OfflineLoopStep | app.py:124-126 | a successful step appends its row and its code to the loop's results |
| OfflineConverter.OfflineLoopStops | app.py:124-126 | over the listed codes the loop raises only at its first step, for an unknown base, with the unknown-code error and one call made |
| OfflineConverter.BuildOfflineTable | app.py:139-141 | the loop returns the rows of `OfflineRows` over the list, or its error, and the codes it called the converter for (`OfflineAttempts`) |
| LiveRates.TryLiveConvert | app.py:69-74 | fails exactly when the request failed or `result` is missing or null; otherwise returns the body unchanged |
| LiveRates.LookupRowAmount | app.py:82-89 | unless `rates` is null, a row's lookup never raises and gives `RowAmount` |
| LiveRates.LiveRowsComplete | app.py:80-90 | unless `rates` is null, one row per code in order, each holding `RowAmount` |
| LiveRates.LiveRowsErrors | app.py:79-89 | the row loop raises only because `rates` is null |
| LiveRates.LiveRowsNullRates | app.py:84-85 | with null `rates`, any code other than the base makes the loop raise |
| LiveRates.LiveTableShape | app.py:76-91 | a fetched body with a `rates` map or no `rates` gives its date and 26 rows labelled `CURRENCIES[i]` |
| LiveRates.LiveTableLabelsDistinct | app.py:80-90 | no two rows of a live table carry the same code |
| LiveRates.LiveTableBaseRow | app.py:82-83 | the base row holds the amount unchanged, whatever the rates say |
| LiveRates.LiveTableOtherRow | app.py:84-89 | a non-base row is `None` exactly when its code has no rate, otherwise amount times rate |
| LiveRates.LiveTableWithoutRates | app.py:79 | a body without `rates` leaves every non-base row `None` |
| LiveRates.LiveTableNullRatesFails | app.py:79-86 | a body with null `rates` makes the live table fail for every base |
| LiveRates.TryLiveTable | app.py:76-91 | the loop returns exactly `LiveTableFor`: request failure, null-rates failure, or the date and the rows |
| Fallback.LiveAttempt | app.py:103-107 | the live reading succeeds exactly when the request succeeded, `result` is present and `info` is not null; it carries `result`, `date` and the `info` rate, and each failure has its own error |
| Fallback.Caption | app.py:106-110 | the rate caption appears exactly when the rate is present and non-zero, with that rate and the date |
| Fallback.OfflineTableCalls | app.py:124-126 | the calls of the offline table loop, one per code it converts into, are all offline calls |
| Fallback.ConvertOfflineOnly | app.py:95-100 | offline-only mode makes one offline call and no live call, reports its result or failure, and ignores the service |
| Fallback.ConvertLiveSuccess | app.py:103-110 | with a `result` and an `info` that is not null, the handler reports the service's `result` and the caption of the `info` rate (none when `info` is missing), after one live call and no offline call |
| Fallback.ConvertLiveFailure | app.py:104-117 | a failed request, a missing or null `result` or a null `info` is followed by exactly one offline call; its result is reported as fallback, its failure as both failed |
| Fallback.ConvertFallbackForListedCurrencies | app.py:104-115 | for listed codes a live failure always reports the offline amount, marked offline |
| Fallback.NullInfoFallsBack | app.py:105-115 | a body with a `result` but a null `info` gives the offline fallback amount |
| Fallback.ConvertReportKinds | app.py:94-117 | each kind of report happens exactly in its mode, live-reading outcome and offline outcome combination |
| Fallback.OfflineTableCallsKnownBase | app.py:124-126 | with a known base the offline table loop calls the converter once per listed code, in order |
| Fallback.OfflineTableCallsUnknownBase | app.py:124-126 | with an unknown base the offline table loop makes one call, for `USD`, the first listed code |
| Fallback.TableOfflineOnly | app.py:123-127 | offline-only tables make no live call, ignore the service, and show 26 offline rows with the base row equal to the amount |
| Fallback.TableLiveSuccess | app.py:129-136 | a live table is shown with its date and 26 rows after one live call |
| Fallback.TableLiveFailure | app.py:137-142 | a failed live table is followed by the offline calls and, for a listed base, the 26 offline rows |
| Fallback.TableUnknownBase | app.py:123-142 | an unknown base makes every offline table raise the unknown-code error |

## Left out

- Page rendering: page setup, sidebar widgets, headers, success, warning, error and caption
  messages and tables (app.py:23-43, app.py:121-122, app.py:144-145). The handlers' reports
  stand for what they would render.
- The HTTP helpers `_fetch_latest_rates` and `_convert_via_api` (app.py:46-58). They use the
  network and decode JSON. Their outcome is the input `LiveOutcome`: a fetched body, or a
  failure standing for a network error, timeout, HTTP error status or undecodable body.
- Page-level caching of the helpers (app.py:46, app.py:53) is a framework decorator. The
  `cache_minutes` option (app.py:34) is never used.
- Floating point: amounts and rates are exact `real`s. The model does not claim bit-exact
  float results. The `float(amount)` coercion (app.py:62) and the 4- and 6-digit formatting
  (app.py:98, app.py:108-110, app.py:115, app.py:126, app.py:134, app.py:141) are left out.
- JSON values of the wrong type, because the body fields are modelled as reals and maps. A
  non-numeric `result` raises at app.py:108 before anything is shown, so only the warning and
  the offline fallback appear. A truthy non-numeric `info.rate` raises at app.py:110 after
  app.py:108 has shown the live result, so the page shows the live result and then the
  fallback. An `info` or `rates` that is neither null nor a map is not modelled either.
- A rate that is present but null reads like a missing rate (`rates.get(cur)` is `None` for
  both), so `Rates` holds only numeric rates.
- The unused `datetime` import (app.py:4).
