/**
 * Asset details: the base asset of a trading-pair symbol, its display name
 * from the editable name table, and its price in every currency of the rate
 * table.
 */
module Details {
  import opened Wrappers
  import opened Rates

  /** The name table every session starts from. */
  const SeedNames: map<string, string> := map[
    "BTC" := "Bitcoin", "ETH" := "Ethereum", "BNB" := "Binance Coin",
    "ADA" := "Cardano", "XRP" := "Ripple", "DOGE" := "Dogecoin"]

  const QuoteAsset: string := "USDT"

  predicate EndsWithQuote(symbol: string) {
    |symbol| >= |QuoteAsset| && symbol[|symbol| - |QuoteAsset|..] == QuoteAsset
  }

  /** The base asset: the symbol less a trailing "USDT" when it has one, else the symbol. */
  function BaseAsset(symbol: string): (base: string)
    ensures EndsWithQuote(symbol) ==> base + QuoteAsset == symbol
    ensures !EndsWithQuote(symbol) ==> base == symbol
  {
    if EndsWithQuote(symbol) then
      assert symbol == symbol[..|symbol| - |QuoteAsset|] + symbol[|symbol| - |QuoteAsset|..];
      symbol[..|symbol| - |QuoteAsset|]
    else symbol
  }

  /** A USDT pair's base asset is the code it was formed from. */
  lemma BaseAssetOfPair(code: string)
    ensures BaseAsset(code + QuoteAsset) == code
  {
    var s := code + QuoteAsset;
    assert s[|s| - |QuoteAsset|..] == QuoteAsset;
  }

  /** The display name of a base asset: its entry in the name table, or the code itself. */
  function DisplayName(names: map<string, string>, code: string): (name: string)
    ensures code in names ==> name == names[code]
    ensures code !in names ==> name == code
  {
    if code in names then names[code] else code
  }

  /** A USD price in every currency of the rate table. */
  function PricesIn(rates: map<string, real>, priceUsd: real): (prices: map<string, real>)
    ensures prices.Keys == rates.Keys
    ensures forall c :: c in rates ==> prices[c] == priceUsd * rates[c]
  {
    map c | c in rates :: priceUsd * rates[c]
  }

  datatype AssetDetails = AssetDetails(symbol: string, fullName: string, priceUsd: real, pricesIn: map<string, real>)

  datatype DetailError =
    | NoData        // the response has no price
    | InvalidPrice  // the price does not parse

  /**
   * The details shown for one symbol: an error when its quote has no price or
   * a price that does not parse; otherwise the symbol, the display name of its
   * base asset, its USD price and that price in every currency of the table.
   */
  function ViewAssetDetails(ticker: Ticker, names: map<string, string>, rates: map<string, real>, symbol: string)
    : (r: Result<AssetDetails, DetailError>)
    ensures ticker(symbol) == NoPrice <==> r == Err(NoData)
    ensures ticker(symbol) == BadPrice <==> r == Err(InvalidPrice)
    ensures ticker(symbol).Price? <==> r.Ok?
    ensures r.Ok? ==> r.value.symbol == symbol && r.value.priceUsd == ticker(symbol).value
    ensures r.Ok? ==> r.value.fullName == DisplayName(names, BaseAsset(symbol))
    ensures r.Ok? ==> r.value.pricesIn.Keys == rates.Keys
    ensures r.Ok? ==> forall c :: c in rates ==> r.value.pricesIn[c] == r.value.priceUsd * rates[c]
  {
    match ticker(symbol)
    case NoPrice => Err(NoData)
    case BadPrice => Err(InvalidPrice)
    case Price(p) =>
      Ok(AssetDetails(symbol, DisplayName(names, BaseAsset(symbol)), p, PricesIn(rates, p)))
  }

  /** One choice of the name-table editor. */
  datatype EditCommand =
    | SetName(code: string, name: string)
    | DeleteName(code: string)
    | ExitEditor
    | UnknownChoice

  datatype EditOutcome = NameSet | NameDeleted | NameMissing | Exited | Rejected

  /** The process-wide table of display names, edited in place. */
  class AssetNameTable {
    var names: map<string, string>

    constructor ()
      ensures names == SeedNames
    {
      names := SeedNames;
    }

    /**
     * Apply one editor choice: add or overwrite an entry, delete an entry when
     * present, or leave the table as it is.
     */
    method EditAssetNames(command: EditCommand) returns (outcome: EditOutcome)
      modifies this
      ensures command.SetName? ==> outcome == NameSet && names == old(names)[command.code := command.name]
      ensures command.SetName? ==> DisplayName(names, command.code) == command.name
      ensures command.DeleteName? ==> names == old(names) - {command.code}
      ensures command.DeleteName? ==> DisplayName(names, command.code) == command.code
      ensures command.DeleteName? ==>
        outcome == (if command.code in old(names) then NameDeleted else NameMissing)
      ensures command.ExitEditor? ==> outcome == Exited && names == old(names)
      ensures command.UnknownChoice? ==> outcome == Rejected && names == old(names)
    {
      match command
      case SetName(code, name) =>
        names := names[code := name];
        outcome := NameSet;
      case DeleteName(code) =>
        if code in names {
          names := names - {code};
          outcome := NameDeleted;
        } else {
          outcome := NameMissing;
        }
      case ExitEditor =>
        outcome := Exited;
      case UnknownChoice =>
        outcome := Rejected;
    }
  }
}
