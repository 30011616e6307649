/** The offline converter: conversion through US dollars with a table of dollar values,
    and the loop that builds the offline table of all currencies. */
module OfflineConverter {
  import opened Wrappers
  import opened Currencies

  /** What `offline_convert` raises: the key lookup of a code missing from the table fails. */
  datatype ConvertError = UnknownCurrency(code: Code)

  /** A table of dollar values that can be divided by: every rate is positive. */
  predicate PositiveRates(rates: map<Code, real>) {
    forall c :: c in rates ==> rates[c] > 0.0
  }

  /** The built-in table is such a table. */
  lemma OfflineRatesPositive()
    ensures PositiveRates(OFFLINE_RATES)
  {
    OfflineTableInvariant();
  }

  /** The two-step conversion through US dollars: `amount` units worth `usdPerFrom` dollars each
      are first turned into dollars, then divided by the dollar value `usdPerTo` of the target unit. */
  function ThroughUsd(amount: real, usdPerFrom: real, usdPerTo: real): real
    requires usdPerTo > 0.0
  {
    var amountInUsd := amount * usdPerFrom;
    amountInUsd / usdPerTo
  }

  /** `offline_convert` over a table of dollar values: the rate of `frm` is looked up before the
      rate of `to`, so an unknown `frm` is the error reported when both codes are unknown. */
  function Convert(rates: map<Code, real>, amount: real, frm: Code, to: Code): (r: Result<real, ConvertError>)
    requires PositiveRates(rates)
    ensures r.Ok? <==> frm in rates && to in rates
    ensures frm !in rates ==> r == Err(UnknownCurrency(frm))
    ensures frm in rates && to !in rates ==> r == Err(UnknownCurrency(to))
  {
    if frm !in rates then Err(UnknownCurrency(frm))
    else if to !in rates then Err(UnknownCurrency(to))
    else Ok(ThroughUsd(amount, rates[frm], rates[to]))
  }

  /** `offline_convert` itself: the conversion with the built-in offline rates. */
  function OfflineConvert(amount: real, frm: Code, to: Code): (r: Result<real, ConvertError>)
    ensures r.Ok? <==> frm in OFFLINE_RATES && to in OFFLINE_RATES
    ensures frm !in OFFLINE_RATES ==> r == Err(UnknownCurrency(frm))
    ensures frm in OFFLINE_RATES && to !in OFFLINE_RATES ==> r == Err(UnknownCurrency(to))
  {
    OfflineRatesPositive();
    Convert(OFFLINE_RATES, amount, frm, to)
  }

  /** The converted amount is worth as many US dollars as the original one. */
  lemma ThroughUsdKeepsValue(amount: real, usdPerFrom: real, usdPerTo: real)
    requires usdPerTo > 0.0
    ensures ThroughUsd(amount, usdPerFrom, usdPerTo) * usdPerTo == amount * usdPerFrom
  {
  }

  /** For two known codes the conversion is the conversion through US dollars at their rates. */
  lemma ConvertKnown(rates: map<Code, real>, amount: real, frm: Code, to: Code)
    requires PositiveRates(rates)
    requires frm in rates && to in rates
    ensures rates[to] > 0.0
    ensures Convert(rates, amount, frm, to) == Ok(ThroughUsd(amount, rates[frm], rates[to]))
  {
  }

  /** For two known codes the result is exactly `amount * rate[frm] / rate[to]`, and it is worth
      as many US dollars as `amount` units of `frm`. */
  lemma ConvertFormula(rates: map<Code, real>, amount: real, frm: Code, to: Code)
    requires PositiveRates(rates)
    requires frm in rates && to in rates
    ensures Convert(rates, amount, frm, to).value == amount * rates[frm] / rates[to]
    ensures Convert(rates, amount, frm, to).value * rates[to] == amount * rates[frm]
  {
    ConvertKnown(rates, amount, frm, to);
    ThroughUsdKeepsValue(amount, rates[frm], rates[to]);
  }

  /** Through US dollars, a unit converted into itself is unchanged. */
  lemma ThroughUsdIdentity(amount: real, usd: real)
    requires usd > 0.0
    ensures ThroughUsd(amount, usd, usd) == amount
  {
    var v := ThroughUsd(amount, usd, usd);
    ThroughUsdKeepsValue(amount, usd, usd);
    CancelFactor(v, amount, usd);
  }

  /** Converting a currency into itself gives the amount back. */
  lemma ConvertSameCurrency(rates: map<Code, real>, amount: real, c: Code)
    requires PositiveRates(rates)
    requires c in rates
    ensures Convert(rates, amount, c, c) == Ok(amount)
  {
    ConvertKnown(rates, amount, c, c);
    ThroughUsdIdentity(amount, rates[c]);
  }

  /** Through US dollars, scaling the amount scales the result. */
  lemma ThroughUsdScales(k: real, amount: real, rf: real, rt: real)
    requires rt > 0.0
    ensures ThroughUsd(k * amount, rf, rt) == k * ThroughUsd(amount, rf, rt)
  {
    var v := ThroughUsd(amount, rf, rt);
    var w := ThroughUsd(k * amount, rf, rt);
    ThroughUsdKeepsValue(amount, rf, rt);
    ThroughUsdKeepsValue(k * amount, rf, rt);
    calc {
      w * rt;
      (k * amount) * rf;
      k * (amount * rf);
      k * (v * rt);
      (k * v) * rt;
    }
    CancelFactor(w, k * v, rt);
  }

  /** The conversion scales linearly with the amount. */
  lemma ConvertScales(rates: map<Code, real>, k: real, amount: real, frm: Code, to: Code)
    requires PositiveRates(rates)
    requires frm in rates && to in rates
    ensures Convert(rates, k * amount, frm, to).value == k * Convert(rates, amount, frm, to).value
  {
    ConvertKnown(rates, amount, frm, to);
    ConvertKnown(rates, k * amount, frm, to);
    ThroughUsdScales(k, amount, rates[frm], rates[to]);
  }

  /** Through US dollars, the conversion of a sum is the sum of the conversions. */
  lemma ThroughUsdAdds(a: real, b: real, rf: real, rt: real)
    requires rt > 0.0
    ensures ThroughUsd(a + b, rf, rt) == ThroughUsd(a, rf, rt) + ThroughUsd(b, rf, rt)
  {
    var u := ThroughUsd(a, rf, rt);
    var v := ThroughUsd(b, rf, rt);
    var w := ThroughUsd(a + b, rf, rt);
    ThroughUsdKeepsValue(a, rf, rt);
    ThroughUsdKeepsValue(b, rf, rt);
    ThroughUsdKeepsValue(a + b, rf, rt);
    calc {
      w * rt;
      (a + b) * rf;
      a * rf + b * rf;
      u * rt + v * rt;
      (u + v) * rt;
    }
    CancelFactor(w, u + v, rt);
  }

  /** The conversion of a sum is the sum of the conversions. */
  lemma ConvertAdds(rates: map<Code, real>, a: real, b: real, frm: Code, to: Code)
    requires PositiveRates(rates)
    requires frm in rates && to in rates
    ensures Convert(rates, a + b, frm, to).value
         == Convert(rates, a, frm, to).value + Convert(rates, b, frm, to).value
  {
    ConvertKnown(rates, a, frm, to);
    ConvertKnown(rates, b, frm, to);
    ConvertKnown(rates, a + b, frm, to);
    ThroughUsdAdds(a, b, rates[frm], rates[to]);
  }

  /** Through US dollars, non-negative amounts and rates give a non-negative result. */
  lemma ThroughUsdNonNegative(amount: real, rf: real, rt: real)
    requires amount >= 0.0 && rf >= 0.0 && rt > 0.0
    ensures ThroughUsd(amount, rf, rt) >= 0.0
  {
    ThroughUsdKeepsValue(amount, rf, rt);
    assert amount * rf >= 0.0;
  }

  /** A non-negative amount converts to a non-negative amount. */
  lemma ConvertNonNegative(rates: map<Code, real>, amount: real, frm: Code, to: Code)
    requires PositiveRates(rates)
    requires amount >= 0.0
    requires frm in rates && to in rates
    ensures Convert(rates, amount, frm, to).value >= 0.0
  {
    ConvertKnown(rates, amount, frm, to);
    ThroughUsdNonNegative(amount, rates[frm], rates[to]);
  }

  /** Through US dollars, converting back restores the amount. */
  lemma ThroughUsdRoundTrip(amount: real, rf: real, rt: real)
    requires rf > 0.0 && rt > 0.0
    ensures ThroughUsd(ThroughUsd(amount, rf, rt), rt, rf) == amount
  {
    var v := ThroughUsd(amount, rf, rt);
    var back := ThroughUsd(v, rt, rf);
    ThroughUsdKeepsValue(amount, rf, rt);
    ThroughUsdKeepsValue(v, rt, rf);
    assert back * rf == v * rt == amount * rf;
    CancelFactor(back, amount, rf);
  }

  /** Converting back into the original currency restores the original amount. */
  lemma ConvertRoundTrip(rates: map<Code, real>, amount: real, frm: Code, to: Code)
    requires PositiveRates(rates)
    requires frm in rates && to in rates
    ensures Convert(rates, Convert(rates, amount, frm, to).value, to, frm) == Ok(amount)
  {
    ConvertKnown(rates, amount, frm, to);
    ConvertKnown(rates, Convert(rates, amount, frm, to).value, to, frm);
    ThroughUsdRoundTrip(amount, rates[frm], rates[to]);
  }

  /** Through US dollars, a detour through a third unit changes nothing. */
  lemma ThroughUsdCompose(amount: real, rf: real, rv: real, rt: real)
    requires rv > 0.0 && rt > 0.0
    ensures ThroughUsd(ThroughUsd(amount, rf, rv), rv, rt) == ThroughUsd(amount, rf, rt)
  {
    var v := ThroughUsd(amount, rf, rv);
    var w := ThroughUsd(v, rv, rt);
    var direct := ThroughUsd(amount, rf, rt);
    ThroughUsdKeepsValue(amount, rf, rv);
    ThroughUsdKeepsValue(v, rv, rt);
    ThroughUsdKeepsValue(amount, rf, rt);
    assert w * rt == v * rv == amount * rf == direct * rt;
    CancelFactor(w, direct, rt);
  }

  /** Converting through an intermediate currency gives the direct conversion. */
  lemma ConvertThrough(rates: map<Code, real>, amount: real, frm: Code, via: Code, to: Code)
    requires PositiveRates(rates)
    requires frm in rates && via in rates && to in rates
    ensures Convert(rates, Convert(rates, amount, frm, via).value, via, to) == Convert(rates, amount, frm, to)
  {
    ConvertKnown(rates, amount, frm, via);
    ConvertKnown(rates, Convert(rates, amount, frm, via).value, via, to);
    ConvertKnown(rates, amount, frm, to);
    ThroughUsdCompose(amount, rates[frm], rates[via], rates[to]);
  }

  /** A non-zero factor common to both sides of an equation cancels. */
  lemma CancelFactor(x: real, y: real, d: real)
    requires d != 0.0
    requires x * d == y * d
    ensures x == y
  {
    assert (x - y) * d == 0.0;
  }

  /** With the built-in rates, one US dollar is worth 10000/33 (about 303.03) Pakistani rupees. */
  lemma OneDollarInRupees()
    ensures OfflineConvert(1.0, "USD", "PKR").Ok?
    ensures OfflineConvert(1.0, "USD", "PKR").value == 10000.0 / 33.0
  {
    OfflineRatesPositive();
    ConvertFormula(OFFLINE_RATES, 1.0, "USD", "PKR");
  }

  /** With the built-in rates, 100 euros are worth 270000/17 (about 15882.35) yen. */
  lemma HundredEurosInYen()
    ensures OfflineConvert(100.0, "EUR", "JPY").Ok?
    ensures OfflineConvert(100.0, "EUR", "JPY").value == 270000.0 / 17.0
  {
    OfflineRatesPositive();
    ConvertFormula(OFFLINE_RATES, 100.0, "EUR", "JPY");
  }

  /** With the built-in rates, every listed currency converted into itself keeps its amount. */
  lemma OfflineSameCurrency(amount: real, c: Code)
    requires c in CURRENCIES
    ensures OfflineConvert(amount, c, c) == Ok(amount)
  {
    OfflineTableInvariant();
    OfflineRatesPositive();
    ConvertSameCurrency(OFFLINE_RATES, amount, c);
  }

  /** One row of the offline table: a currency and the amount converted into it. */
  datatype OfflineRow = OfflineRow(currency: Code, amount: real)

  /** The rows the offline table loop appends for `codes`, in order, each converting `amount`
      of `frm` into that code. The first failing conversion raises out of the loop. */
  function OfflineRows(amount: real, frm: Code, codes: seq<Code>): Result<seq<OfflineRow>, ConvertError>
  {
    if codes == [] then Ok([])
    else
      match OfflineRows(amount, frm, codes[..|codes| - 1])
      case Err(e) => Err(e)
      case Ok(rows) =>
        match OfflineConvert(amount, frm, codes[|codes| - 1])
        case Err(e) => Err(e)
        case Ok(v) => Ok(rows + [OfflineRow(codes[|codes| - 1], v)])
  }

  /** With a known base and known codes, every code gets one row, in order, holding the converted amount. */
  lemma {:induction false} OfflineRowsComplete(amount: real, frm: Code, codes: seq<Code>)
    requires frm in OFFLINE_RATES
    requires forall c :: c in codes ==> c in OFFLINE_RATES
    ensures OfflineRows(amount, frm, codes).Ok?
    ensures |OfflineRows(amount, frm, codes).value| == |codes|
    ensures forall i :: 0 <= i < |codes| ==>
      OfflineRows(amount, frm, codes).value[i]
        == OfflineRow(codes[i], OfflineConvert(amount, frm, codes[i]).value)
  {
    if codes != [] {
      var init := codes[..|codes| - 1];
      assert forall c :: c in init ==> c in codes;
      OfflineRowsComplete(amount, frm, init);
      assert forall i :: 0 <= i < |init| ==> init[i] == codes[i];
    }
  }

  /** With an unknown base the very first conversion raises, so the table fails with that code. */
  lemma {:induction false} OfflineRowsUnknownBase(amount: real, frm: Code, codes: seq<Code>)
    requires frm !in OFFLINE_RATES
    requires codes != []
    ensures OfflineRows(amount, frm, codes) == Err(UnknownCurrency(frm))
  {
    if |codes| > 1 {
      OfflineRowsUnknownBase(amount, frm, codes[..|codes| - 1]);
    }
  }

  /** The offline table over all currencies: 26 rows in list order when `frm` is known,
      the unknown-code error otherwise. */
  lemma OfflineTableShape(amount: real, frm: Code)
    ensures frm !in OFFLINE_RATES ==> OfflineRows(amount, frm, CURRENCIES) == Err(UnknownCurrency(frm))
    ensures frm in OFFLINE_RATES ==>
      var t := OfflineRows(amount, frm, CURRENCIES);
      t.Ok? && |t.value| == |CURRENCIES| == 26 &&
      forall i :: 0 <= i < |CURRENCIES| ==>
        t.value[i].currency == CURRENCIES[i] &&
        t.value[i] == OfflineRow(CURRENCIES[i], OfflineConvert(amount, frm, CURRENCIES[i]).value)
  {
    CurrencyListShape();
    if frm in OFFLINE_RATES {
      CurrenciesHaveRates();
      OfflineRowsComplete(amount, frm, CURRENCIES);
    } else {
      OfflineRowsUnknownBase(amount, frm, CURRENCIES);
    }
  }

  /** The codes the offline table loop calls `offline_convert` for, in order: each code of
      `codes` until a conversion raises, that one included. */
  function OfflineAttempts(amount: real, frm: Code, codes: seq<Code>): seq<Code>
  {
    if codes == [] then []
    else
      var init := codes[..|codes| - 1];
      if OfflineRows(amount, frm, init).Err? then OfflineAttempts(amount, frm, init)
      else OfflineAttempts(amount, frm, init) + [codes[|codes| - 1]]
  }

  /** When the loop completes without raising, it has converted into every code, in order. */
  lemma {:induction false} OfflineAttemptsWhenComplete(amount: real, frm: Code, codes: seq<Code>)
    requires OfflineRows(amount, frm, codes).Ok?
    ensures OfflineAttempts(amount, frm, codes) == codes
  {
    if codes != [] {
      var init := codes[..|codes| - 1];
      OfflineAttemptsWhenComplete(amount, frm, init);
      assert init + [codes[|codes| - 1]] == codes;
    }
  }

  /** With a known base and known codes, the loop converts into every code, in order. */
  lemma OfflineAttemptsKnownBase(amount: real, frm: Code, codes: seq<Code>)
    requires frm in OFFLINE_RATES
    requires forall c :: c in codes ==> c in OFFLINE_RATES
    ensures OfflineAttempts(amount, frm, codes) == codes
  {
    OfflineRowsComplete(amount, frm, codes);
    OfflineAttemptsWhenComplete(amount, frm, codes);
  }

  /** With an unknown base the loop makes one call, for the first code, and stops. */
  lemma {:induction false} OfflineAttemptsUnknownBase(amount: real, frm: Code, codes: seq<Code>)
    requires frm !in OFFLINE_RATES
    requires codes != []
    ensures OfflineAttempts(amount, frm, codes) == [codes[0]]
  {
    var init := codes[..|codes| - 1];
    if |codes| > 1 {
      OfflineRowsUnknownBase(amount, frm, init);
      OfflineAttemptsUnknownBase(amount, frm, init);
    }
  }

  /** One step of the offline table loop: a successful conversion adds its row and its code. */
  lemma OfflineLoopStep(amount: real, frm: Code, codes: seq<Code>, i: nat, rows: seq<OfflineRow>, v: real)
    requires i < |codes|
    requires OfflineRows(amount, frm, codes[..i]) == Ok(rows)
    requires OfflineConvert(amount, frm, codes[i]) == Ok(v)
    ensures OfflineRows(amount, frm, codes[..i + 1]) == Ok(rows + [OfflineRow(codes[i], v)])
    ensures OfflineAttempts(amount, frm, codes[..i + 1]) == OfflineAttempts(amount, frm, codes[..i]) + [codes[i]]
  {
    assert codes[..i + 1][..i] == codes[..i];
  }

  /** The offline table loop over the listed currencies fails only at its first step, for an
      unknown base, and then the whole loop fails with that one call made. */
  lemma OfflineLoopStops(amount: real, frm: Code, i: nat)
    requires i < |CURRENCIES|
    requires i > 0 ==> frm in OFFLINE_RATES
    requires OfflineConvert(amount, frm, CURRENCIES[i]).Err?
    ensures i == 0 && frm !in OFFLINE_RATES
    ensures OfflineConvert(amount, frm, CURRENCIES[i]) == Err(UnknownCurrency(frm))
    ensures OfflineRows(amount, frm, CURRENCIES) == Err(UnknownCurrency(frm))
    ensures OfflineAttempts(amount, frm, CURRENCIES) == [CURRENCIES[0]]
  {
    CurrenciesHaveRates();
    OfflineRowsUnknownBase(amount, frm, CURRENCIES);
    OfflineAttemptsUnknownBase(amount, frm, CURRENCIES);
  }

  /** The loop that builds the offline table: one converted row per listed currency, with the
      codes it called `offline_convert` for. */
  method BuildOfflineTable(amount: real, frm: Code) returns (r: Result<seq<OfflineRow>, ConvertError>, attempted: seq<Code>)
    ensures r == OfflineRows(amount, frm, CURRENCIES)
    ensures attempted == OfflineAttempts(amount, frm, CURRENCIES)
  {
    var rows: seq<OfflineRow> := [];
    attempted := [];
    for i := 0 to |CURRENCIES|
      invariant OfflineRows(amount, frm, CURRENCIES[..i]) == Ok(rows)
      invariant attempted == OfflineAttempts(amount, frm, CURRENCIES[..i])
      invariant i > 0 ==> frm in OFFLINE_RATES
    {
      var converted := OfflineConvert(amount, frm, CURRENCIES[i]);
      if converted.Err? {
        OfflineLoopStops(amount, frm, i);
        return Err(converted.error), attempted + [CURRENCIES[i]];
      }
      OfflineLoopStep(amount, frm, CURRENCIES, i, rows, converted.value);
      rows := rows + [OfflineRow(CURRENCIES[i], converted.value)];
      attempted := attempted + [CURRENCIES[i]];
    }
    assert CURRENCIES[..|CURRENCIES|] == CURRENCIES;
    r := Ok(rows);
  }
}
