/** The fixed list of selectable currencies and the built-in offline rate table. */
module Currencies {

  /** A three-letter currency code such as "USD". */
  type Code = string

  /** The selectable currencies, in the order the selectors and tables list them. */
  const CURRENCIES: seq<Code> := [
    "USD", "EUR", "GBP", "JPY", "AUD", "CAD", "CHF", "CNY", "INR", "PKR", "SGD", "NZD",
    "SEK", "NOK", "RUB", "BRL", "ZAR", "AED", "SAR", "MXN", "TRY", "HKD", "IDR", "THB",
    "VND", "ILS"
  ]

  /** Offline fallback rates: how many US dollars one unit of each currency is worth. */
  const OFFLINE_RATES: map<Code, real> := map[
    "USD" := 1.0, "EUR" := 1.08, "GBP" := 1.27, "JPY" := 0.0068, "AUD" := 0.63, "CAD" := 0.74,
    "CHF" := 1.09, "CNY" := 0.14, "INR" := 0.012, "PKR" := 0.0033, "SGD" := 0.74, "NZD" := 0.59,
    "SEK" := 0.092, "NOK" := 0.093, "RUB" := 0.012, "BRL" := 0.19, "ZAR" := 0.049, "AED" := 0.27,
    "SAR" := 0.27, "MXN" := 0.056, "TRY" := 0.034, "HKD" := 0.128, "IDR" := 0.000062,
    "THB" := 0.027, "VND" := 0.000042, "ILS" := 0.27
  ]

  /** No code occurs twice in `s`. */
  predicate Distinct(s: seq<Code>) {
    forall i, j :: 0 <= i < j < |s| ==> s[i] != s[j]
  }

  /** The currency list holds 26 codes, none of them twice. */
  lemma CurrencyListShape()
    ensures |CURRENCIES| == 26
    ensures Distinct(CURRENCIES)
  {
  }

  /** Every listed currency has an offline rate. */
  lemma CurrenciesHaveRates()
    ensures forall c :: c in CURRENCIES ==> c in OFFLINE_RATES
  {
  }

  /** The offline table has no entry for a code outside the list. */
  lemma RatesOnlyForCurrencies()
    ensures forall c :: c in OFFLINE_RATES ==> c in CURRENCIES
  {
  }

  /** Every offline rate is positive. */
  lemma RatesPositive()
    ensures forall c :: c in OFFLINE_RATES ==> OFFLINE_RATES[c] > 0.0
  {
  }

  /** US dollars are the unit of the offline table. */
  lemma DollarIsUnit()
    ensures "USD" in OFFLINE_RATES && OFFLINE_RATES["USD"] == 1.0
  {
    RatesOnlyForCurrencies();
  }

  /** The offline table has an entry for exactly the listed currencies, every rate is positive,
      and US dollars are the unit of the table. */
  lemma OfflineTableInvariant()
    ensures forall c :: c in CURRENCIES <==> c in OFFLINE_RATES
    ensures forall c :: c in OFFLINE_RATES ==> OFFLINE_RATES[c] > 0.0
    ensures OFFLINE_RATES["USD"] == 1.0
  {
    CurrenciesHaveRates();
    RatesOnlyForCurrencies();
    RatesPositive();
    DollarIsUnit();
  }
}
