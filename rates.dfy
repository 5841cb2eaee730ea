/**
 * Fiat conversion rates ("units of the currency per 1 USD"): resolution of one
 * rate from the exchange's stablecoin quotes, and the in-place refresh of the
 * whole rate table.
 */
module Rates {
  import opened Wrappers

  /**
   * What a price request for one trading pair yields: no "price" field, a price
   * that parses as a number, or a "price" field that does not parse.
   */
  datatype Quote = NoPrice | Price(value: real) | BadPrice

  /** The exchange's price endpoint at one moment: a quote per trading-pair symbol. */
  type Ticker = string -> Quote

  /** The rate table's reference currency, which is never refreshed. */
  const Usd: string := "USD"

  /** The rate table every session starts from. */
  const SeedRates: map<string, real> :=
    map["USD" := 1.0, "RUB" := 60.0, "EUR" := 0.95, "GBP" := 0.82, "JPY" := 130.0]

  /** The direct pair, quoting one USDT in the fiat currency. */
  function DirectPair(fiat: string): string { "USDT" + fiat }

  /** The reverse pair, quoting one unit of the fiat currency in USDT. */
  function ReversePair(fiat: string): string { fiat + "USDT" }

  /**
   * The rate of `fiat`: the direct quote when it has a price (taken as it is,
   * zero included); otherwise the inverse of the reverse quote, when that has a
   * non-zero price; otherwise no rate.
   */
  function GetFiatRate(ticker: Ticker, fiat: string): (r: Option<real>)
    ensures ticker(DirectPair(fiat)).Price? ==> r == Some(ticker(DirectPair(fiat)).value)
    ensures !ticker(DirectPair(fiat)).Price? ==>
      (r.Some? <==> ticker(ReversePair(fiat)).Price? && ticker(ReversePair(fiat)).value != 0.0)
    ensures !ticker(DirectPair(fiat)).Price? && r.Some? ==>
      r.value * ticker(ReversePair(fiat)).value == 1.0
  {
    match ticker(DirectPair(fiat))
    case Price(rate) => Some(rate)
    case _ =>
      match ticker(ReversePair(fiat))
      case Price(rate) => if rate != 0.0 then Some(1.0 / rate) else None
      case _ => None
  }

  /**
   * The rate table after a refresh: the same currencies; "USD" and every
   * currency whose rate could not be resolved keep their previous rate; every
   * other currency takes its resolved rate.
   */
  function Refreshed(rates: map<string, real>, ticker: Ticker): (r: map<string, real>)
    ensures r.Keys == rates.Keys
    ensures Usd in rates ==> r[Usd] == rates[Usd]
    ensures forall c :: c in rates && (c == Usd || GetFiatRate(ticker, c).None?) ==> r[c] == rates[c]
    ensures forall c :: c in rates && c != Usd && GetFiatRate(ticker, c).Some? ==>
      r[c] == GetFiatRate(ticker, c).value
  {
    map c | c in rates :: if c != Usd && GetFiatRate(ticker, c).Some? then GetFiatRate(ticker, c).value else rates[c]
  }

  /** The currencies a refresh reports as not updated. */
  function FailedCurrencies(rates: map<string, real>, ticker: Ticker): (failed: set<string>)
    ensures failed <= rates.Keys && Usd !in failed
    ensures forall c :: c in failed <==> c in rates && c != Usd && GetFiatRate(ticker, c).None?
  {
    set c | c in rates && c != Usd && GetFiatRate(ticker, c).None?
  }

  /** A direct quote of `p` sets the rate to `p`, even when `p` is zero. */
  lemma RefreshTakesDirectQuote(rates: map<string, real>, ticker: Ticker, fiat: string, p: real)
    requires fiat in rates && fiat != Usd && ticker(DirectPair(fiat)) == Price(p)
    ensures Refreshed(rates, ticker)[fiat] == p
  {
  }

  /** Without a direct price, a non-zero reverse quote `q` sets the rate to 1/q. */
  lemma RefreshInvertsReverseQuote(rates: map<string, real>, ticker: Ticker, fiat: string, q: real)
    requires fiat in rates && fiat != Usd && !ticker(DirectPair(fiat)).Price?
    requires ticker(ReversePair(fiat)) == Price(q) && q != 0.0
    ensures Refreshed(rates, ticker)[fiat] * q == 1.0
  {
  }

  /** With neither price usable, the previous rate is kept. */
  lemma RefreshKeepsRateOnFailure(rates: map<string, real>, ticker: Ticker, fiat: string)
    requires fiat in rates && !ticker(DirectPair(fiat)).Price?
    requires !ticker(ReversePair(fiat)).Price? || ticker(ReversePair(fiat)).value == 0.0
    ensures Refreshed(rates, ticker)[fiat] == rates[fiat]
  {
  }

  /** Against the same quotes, a second refresh changes nothing. */
  lemma RefreshIdempotent(rates: map<string, real>, ticker: Ticker)
    ensures Refreshed(Refreshed(rates, ticker), ticker) == Refreshed(rates, ticker)
  {
  }

  /** The process-wide rate table, refreshed in place. */
  class RateTable {
    var rates: map<string, real>

    constructor ()
      ensures rates == SeedRates
    {
      rates := SeedRates;
    }

    /**
     * Refresh every non-USD rate from the exchange, keeping the previous rate
     * of each currency whose rate cannot be resolved; returns those currencies.
     */
    method UpdateAllFiatRates(ticker: Ticker) returns (failed: set<string>)
      modifies this
      ensures rates == Refreshed(old(rates), ticker)
      ensures failed == FailedCurrencies(old(rates), ticker)
    {
      failed := {};
      var todo := rates.Keys;
      while todo != {}
        invariant todo <= old(rates).Keys
        invariant rates.Keys == old(rates).Keys
        invariant forall c :: c in todo ==> rates[c] == old(rates)[c]
        invariant forall c :: c in rates && c !in todo ==> rates[c] == Refreshed(old(rates), ticker)[c]
        invariant failed == FailedCurrencies(old(rates), ticker) - todo
        decreases todo
      {
        var fiat :| fiat in todo;
        todo := todo - {fiat};
        if fiat != Usd {
          var rate := GetFiatRate(ticker, fiat);
          if rate.Some? {
            rates := rates[fiat := rate.value];
          } else {
            failed := failed + {fiat};
          }
        }
      }
    }
  }
}
