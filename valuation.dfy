/**
 * Portfolio valuation: per-currency running totals of amount * price * rate
 * over the holdings of the selected portfolio.
 */
module Valuation {
  import opened Wrappers
  import opened Rates
  import opened Holdings
  import Details

  /** Every holding's quote is either missing or a parsable price (a bad price aborts the view). */
  predicate PricesReadable(assets: seq<Holding>, ticker: Ticker) {
    forall i :: 0 <= i < |assets| ==> ticker(assets[i].symbol) != BadPrice
  }

  /** The USD price used for a holding: the quoted price, or 0 when the quote has none. */
  function PriceUsd(q: Quote): (p: real)
    requires q != BadPrice
    ensures q.Price? ==> p == q.value
    ensures q == NoPrice ==> p == 0.0
  {
    if q.Price? then q.value else 0.0
  }

  /** The USD value of one holding: its amount times its USD price. */
  function HoldingValueUsd(h: Holding, ticker: Ticker): real
    requires ticker(h.symbol) != BadPrice
  {
    h.amount * PriceUsd(ticker(h.symbol))
  }

  /** Sum over the holdings of amount * price. */
  function ValueUsd(assets: seq<Holding>, ticker: Ticker): real
    requires PricesReadable(assets, ticker)
  {
    if assets == [] then 0.0
    else ValueUsd(assets[..|assets| - 1], ticker) + HoldingValueUsd(assets[|assets| - 1], ticker)
  }

  /** Sum over the holdings of amount * price * rate, for one currency's rate. */
  function ValueIn(assets: seq<Holding>, ticker: Ticker, rate: real): real
    requires PricesReadable(assets, ticker)
  {
    if assets == [] then 0.0
    else ValueIn(assets[..|assets| - 1], ticker, rate) + HoldingValueUsd(assets[|assets| - 1], ticker) * rate
  }

  /** Converting each holding and summing is the same as converting the USD total. */
  lemma {:induction false} ValueInIsConvertedTotal(assets: seq<Holding>, ticker: Ticker, rate: real)
    requires PricesReadable(assets, ticker)
    ensures ValueIn(assets, ticker, rate) == ValueUsd(assets, ticker) * rate
    decreases |assets|
  {
    if assets != [] {
      ValueInIsConvertedTotal(assets[..|assets| - 1], ticker, rate);
    }
  }

  /** The total of two lists of holdings is the sum of their totals. */
  lemma {:induction false} ValueUsdConcat(a: seq<Holding>, b: seq<Holding>, ticker: Ticker)
    requires PricesReadable(a, ticker) && PricesReadable(b, ticker)
    ensures PricesReadable(a + b, ticker)
    ensures ValueUsd(a + b, ticker) == ValueUsd(a, ticker) + ValueUsd(b, ticker)
    decreases |b|
  {
    assert forall i :: 0 <= i < |a + b| ==> (a + b)[i] == if i < |a| then a[i] else b[i - |a|];
    if b == [] {
      assert a + b == a;
    } else {
      var init := b[..|b| - 1];
      assert (a + b)[..|a + b| - 1] == a + init;
      ValueUsdConcat(a, init, ticker);
    }
  }

  /**
   * The order in which holdings are valued does not change the total: any
   * two lists with the same holdings, each as often, have the same total.
   */
  lemma {:induction false} ValueUsdOrderIndependent(a: seq<Holding>, b: seq<Holding>, ticker: Ticker)
    requires PricesReadable(a, ticker) && PricesReadable(b, ticker)
    requires multiset(a) == multiset(b)
    ensures ValueUsd(a, ticker) == ValueUsd(b, ticker)
    decreases |a|
  {
    if a == [] {
      assert |b| == |multiset(b)| == 0;
    } else {
      var x := a[|a| - 1];
      var init := a[..|a| - 1];
      assert x in multiset(b);
      var j :| 0 <= j < |b| && b[j] == x;
      var rest := b[..j] + b[j + 1..];
      ValueUsdRemove(b, j, ticker);
      RemoveLastMatching(a, b, j);
      assert PricesReadable(init, ticker) by {
        forall i | 0 <= i < |init| ensures ticker(init[i].symbol) != BadPrice {
          assert init[i] == a[i];
        }
      }
      ValueUsdOrderIndependent(init, rest, ticker);
      assert ValueUsd(a, ticker) == ValueUsd(init, ticker) + HoldingValueUsd(x, ticker);
    }
  }

  /** Removing the same holding from two lists with equal contents leaves equal contents. */
  lemma RemoveLastMatching(a: seq<Holding>, b: seq<Holding>, j: nat)
    requires a != [] && j < |b| && b[j] == a[|a| - 1]
    requires multiset(a) == multiset(b)
    ensures multiset(a[..|a| - 1]) == multiset(b[..j] + b[j + 1..])
  {
    var x := b[j];
    assert a == a[..|a| - 1] + [x];
    assert b == b[..j] + [x] + b[j + 1..];
    calc {
      multiset(b[..j] + b[j + 1..]);
      multiset(b[..j]) + multiset(b[j + 1..]);
      multiset(b) - multiset{x};
      multiset(a) - multiset{x};
      multiset(a[..|a| - 1]);
    }
  }

  /** Taking one holding out of a list lowers the total by exactly that holding's value. */
  lemma ValueUsdRemove(b: seq<Holding>, j: nat, ticker: Ticker)
    requires j < |b| && PricesReadable(b, ticker)
    ensures PricesReadable(b[..j] + b[j + 1..], ticker)
    ensures ValueUsd(b, ticker) == ValueUsd(b[..j] + b[j + 1..], ticker) + HoldingValueUsd(b[j], ticker)
  {
    var front, back := b[..j], b[j + 1..];
    assert b == front + [b[j]] + back;
    assert PricesReadable(front, ticker) && PricesReadable(back, ticker) by {
      forall i | 0 <= i < |front| ensures ticker(front[i].symbol) != BadPrice { assert front[i] == b[i]; }
      forall i | 0 <= i < |back| ensures ticker(back[i].symbol) != BadPrice { assert back[i] == b[j + 1 + i]; }
    }
    assert [b[j]][..0] == [];
    ValueUsdConcat(front, [b[j]], ticker);
    ValueUsdConcat(front + [b[j]], back, ticker);
    ValueUsdConcat(front, back, ticker);
  }

  /** A holding whose quote has no price adds nothing to any total. */
  lemma UnpricedHoldingAddsNothing(assets: seq<Holding>, h: Holding, ticker: Ticker, rate: real)
    requires PricesReadable(assets, ticker) && ticker(h.symbol) == NoPrice
    ensures PricesReadable(assets + [h], ticker)
    ensures ValueUsd(assets + [h], ticker) == ValueUsd(assets, ticker)
    ensures ValueIn(assets + [h], ticker, rate) == ValueIn(assets, ticker, rate)
  {
    assert (assets + [h])[..|assets|] == assets;
  }

  /**
   * One unit of an asset is valued, in every non-USD currency, at the price
   * its details view shows for that currency.
   */
  lemma OneUnitMatchesDetails(ticker: Ticker, names: map<string, string>, rates: map<string, real>,
                              symbol: string, name: string, portfolioId: int, c: string)
    requires ticker(symbol).Price? && c in rates
    ensures PricesReadable([Holding(symbol, name, 1.0, portfolioId)], ticker)
    ensures ValueIn([Holding(symbol, name, 1.0, portfolioId)], ticker, rates[c])
         == Details.ViewAssetDetails(ticker, names, rates, symbol).value.pricesIn[c]
  {
    var one := [Holding(symbol, name, 1.0, portfolioId)];
    assert one[..0] == [];
  }

  /**
   * The totals of the valuation view, or nothing when the portfolio is empty.
   * The totals have exactly the rate table's currencies; the USD total is the
   * sum of amount * price, and every other currency's total is the sum of
   * amount * price * rate, which is the USD total converted at that rate.
   */
  method PortfolioTotals(assets: seq<Holding>, ticker: Ticker, rates: map<string, real>)
    returns (totals: Option<map<string, real>>)
    requires Usd in rates
    requires PricesReadable(assets, ticker)
    ensures totals.None? <==> assets == []
    ensures totals.Some? ==> totals.value.Keys == rates.Keys
    ensures totals.Some? ==> totals.value[Usd] == ValueUsd(assets, ticker)
    ensures totals.Some? ==> forall c :: c in rates && c != Usd ==> totals.value[c] == ValueIn(assets, ticker, rates[c])
    ensures totals.Some? ==> forall c :: c in rates && c != Usd ==> totals.value[c] == ValueUsd(assets, ticker) * rates[c]
  {
    if assets == [] {
      return None;
    }
    var sums := RunningTotals(assets, ticker, rates);
    forall c | c in rates && c != Usd ensures sums[c] == ValueUsd(assets, ticker) * rates[c] {
      ValueInIsConvertedTotal(assets, ticker, rates[c]);
    }
    return Some(sums);
  }

  /**
   * The outer loop of the valuation: starting from zero in every currency,
   * add each holding's USD value to the USD total and its converted value to
   * every other currency's total.
   */
  method RunningTotals(assets: seq<Holding>, ticker: Ticker, rates: map<string, real>)
    returns (sums: map<string, real>)
    requires Usd in rates
    requires PricesReadable(assets, ticker)
    ensures sums.Keys == rates.Keys
    ensures sums[Usd] == ValueUsd(assets, ticker)
    ensures forall c :: c in rates && c != Usd ==> sums[c] == ValueIn(assets, ticker, rates[c])
  {
    var columns := rates.Keys - {Usd};
    sums := map c | c in rates :: 0.0;
    var i := 0;
    while i < |assets|
      invariant 0 <= i <= |assets|
      invariant sums.Keys == rates.Keys
      invariant sums[Usd] == ValueUsd(assets[..i], ticker)
      invariant forall c :: c in columns ==> sums[c] == ValueIn(assets[..i], ticker, rates[c])
    {
      var valueUsd := HoldingValueUsd(assets[i], ticker);
      sums := sums[Usd := sums[Usd] + valueUsd];
      sums := AddToColumns(sums, columns, valueUsd, rates);
      ValueStep(assets, ticker, i);
      i := i + 1;
    }
    assert assets[..|assets|] == assets;
  }

  /**
   * The inner loop of the valuation: add one holding's USD value, converted at
   * each currency's rate, to that currency's running total.
   */
  method AddToColumns(sums: map<string, real>, columns: set<string>, valueUsd: real, rates: map<string, real>)
    returns (r: map<string, real>)
    requires columns <= sums.Keys && columns <= rates.Keys
    ensures r.Keys == sums.Keys
    ensures forall c :: c in columns ==> r[c] == sums[c] + valueUsd * rates[c]
    ensures forall c :: c in sums && c !in columns ==> r[c] == sums[c]
  {
    r := sums;
    var todo := columns;
    while todo != {}
      invariant todo <= columns
      invariant r.Keys == sums.Keys
      invariant forall c :: c in r && c !in columns - todo ==> r[c] == sums[c]
      invariant forall c :: c in columns - todo ==> r[c] == sums[c] + valueUsd * rates[c]
      decreases todo
    {
      var c :| c in todo;
      r := r[c := r[c] + valueUsd * rates[c]];
      todo := todo - {c};
    }
  }

  /** One holding more: each total grows by that holding's value. */
  lemma ValueStep(assets: seq<Holding>, ticker: Ticker, i: nat)
    requires i < |assets| && PricesReadable(assets, ticker)
    ensures PricesReadable(assets[..i], ticker) && PricesReadable(assets[..i + 1], ticker)
    ensures ValueUsd(assets[..i + 1], ticker) == ValueUsd(assets[..i], ticker) + HoldingValueUsd(assets[i], ticker)
    ensures forall rate :: ValueIn(assets[..i + 1], ticker, rate)
                        == ValueIn(assets[..i], ticker, rate) + HoldingValueUsd(assets[i], ticker) * rate
  {
    assert assets[..i + 1][..i] == assets[..i];
  }

  /** What the valuation view shows. */
  datatype PortfolioView =
    | NoPortfolioSelected
    | EmptyPortfolio
    | Totals(totals: map<string, real>)

  /**
   * The valuation view: refresh the rate table, then value the holdings of the
   * selected portfolio. The refresh happens even when no portfolio is selected.
   */
  method ViewPortfolio(manager: PortfolioManager, store: AssetStore, rateTable: RateTable, ticker: Ticker)
    returns (view: PortfolioView)
    requires Usd in rateTable.rates
    requires manager.current.Some? ==> PricesReadable(HoldingsIn(store.assets, manager.current.value.id), ticker)
    modifies rateTable
    ensures rateTable.rates == Refreshed(old(rateTable.rates), ticker)
    ensures manager.current.None? <==> view == NoPortfolioSelected
    ensures manager.current.Some? ==>
      var held := HoldingsIn(store.assets, manager.current.value.id);
      && PricesReadable(held, ticker)
      && (view == EmptyPortfolio <==> held == [])
      && (view.Totals? ==>
            && view.totals.Keys == rateTable.rates.Keys
            && view.totals[Usd] == ValueUsd(held, ticker)
            && (forall c :: c in rateTable.rates && c != Usd ==>
                  view.totals[c] == ValueIn(held, ticker, rateTable.rates[c])))
  {
    var failed := rateTable.UpdateAllFiatRates(ticker);
    var portfolioId := manager.GetCurrentPortfolioId();
    if portfolioId.None? {
      return NoPortfolioSelected;
    }
    var held := store.HoldingsOf(portfolioId.value);
    var totals := PortfolioTotals(held, ticker, rateTable.rates);
    if totals.None? {
      return EmptyPortfolio;
    }
    return Totals(totals.value);
  }
}
