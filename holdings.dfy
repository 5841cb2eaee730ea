/**
 * Portfolios and their holdings: the current-portfolio selection and the
 * add / update / remove operations on the holdings table, keyed by
 * (symbol, portfolio id).
 */
module Holdings {
  import opened Wrappers

  datatype Portfolio = Portfolio(id: int, name: string)

  /** One row of the holdings table. */
  datatype Holding = Holding(symbol: string, name: string, amount: real, portfolioId: int)

  /** How one holdings operation ended. */
  datatype AssetOutcome =
    | Added | Updated | Removed
    | InvalidAmount   // the amount typed in is not a number
    | AlreadyExists   // add: the portfolio already holds the symbol
    | NotFound        // update, remove: the portfolio does not hold the symbol
    | NoPortfolio     // no portfolio is selected

  /** The session state that remembers which portfolio is selected. */
  class PortfolioManager {
    var current: Option<Portfolio>

    constructor ()
      ensures current == None
    {
      current := None;
    }

    /** The id of the selected portfolio; fails when none is selected. */
    method GetCurrentPortfolioId() returns (id: Option<int>)
      ensures id.Some? <==> current.Some?
      ensures id.Some? ==> id.value == current.value.id
    {
      if current.None? {
        return None;
      }
      return Some(current.value.id);
    }
  }

  predicate Matches(h: Holding, symbol: string, portfolioId: int) {
    h.symbol == symbol && h.portfolioId == portfolioId
  }

  /** The position of the first holding with this key (the `first()` of the lookup query). */
  function FindAsset(assets: seq<Holding>, symbol: string, portfolioId: int): (r: Option<nat>)
    ensures r.Some? ==> r.value < |assets| && Matches(assets[r.value], symbol, portfolioId)
    ensures r.Some? ==> forall j :: 0 <= j < r.value ==> !Matches(assets[j], symbol, portfolioId)
    ensures r.None? <==> forall j :: 0 <= j < |assets| ==> !Matches(assets[j], symbol, portfolioId)
  {
    if assets == [] then None
    else if Matches(assets[0], symbol, portfolioId) then Some(0)
    else
      match FindAsset(assets[1..], symbol, portfolioId)
      case None => None
      case Some(i) => Some(i + 1)
  }

  /** No two holdings share a (symbol, portfolio id) key. */
  ghost predicate UniqueKeys(assets: seq<Holding>) {
    forall i, j :: 0 <= i < j < |assets| ==>
      assets[i].symbol != assets[j].symbol || assets[i].portfolioId != assets[j].portfolioId
  }

  /**
   * The table after adding a holding: unchanged when the key is present;
   * otherwise one more row, the new holding, after all previous rows. Either
   * way the key is present afterwards.
   */
  function AddedAssets(assets: seq<Holding>, portfolioId: int, symbol: string, name: string, amount: real): (r: seq<Holding>)
    ensures FindAsset(assets, symbol, portfolioId).Some? ==> r == assets
    ensures FindAsset(assets, symbol, portfolioId).None? ==>
      |r| == |assets| + 1 && r[..|assets|] == assets && r[|assets|] == Holding(symbol, name, amount, portfolioId)
    ensures FindAsset(r, symbol, portfolioId).Some?
  {
    if FindAsset(assets, symbol, portfolioId).Some? then assets
    else
      var r := assets + [Holding(symbol, name, amount, portfolioId)];
      assert Matches(r[|assets|], symbol, portfolioId);
      r
  }

  /**
   * The table after setting a holding's amount: unchanged when the key is
   * missing; otherwise the same rows, except that the matching row has the
   * new amount and keeps its symbol, name and portfolio.
   */
  function UpdatedAssets(assets: seq<Holding>, portfolioId: int, symbol: string, amount: real): (r: seq<Holding>)
    ensures |r| == |assets|
    ensures FindAsset(assets, symbol, portfolioId).None? ==> r == assets
    ensures FindAsset(assets, symbol, portfolioId).Some? ==>
      var i := FindAsset(assets, symbol, portfolioId).value;
      && (forall j :: 0 <= j < |r| && j != i ==> r[j] == assets[j])
      && r[i].amount == amount && r[i].symbol == symbol && r[i].portfolioId == portfolioId
      && r[i].name == assets[i].name
  {
    match FindAsset(assets, symbol, portfolioId)
    case None => assets
    case Some(i) => assets[i := assets[i].(amount := amount)]
  }

  /**
   * The table after removing a holding: unchanged when the key is missing;
   * otherwise the rows in the same order, less the matching one.
   */
  function RemovedAssets(assets: seq<Holding>, portfolioId: int, symbol: string): (r: seq<Holding>)
    ensures FindAsset(assets, symbol, portfolioId).None? ==> r == assets
    ensures FindAsset(assets, symbol, portfolioId).Some? ==>
      var i := FindAsset(assets, symbol, portfolioId).value;
      && |r| == |assets| - 1
      && multiset(r) + multiset{assets[i]} == multiset(assets)
      && (forall j :: 0 <= j < i ==> r[j] == assets[j])
      && (forall j :: i <= j < |r| ==> r[j] == assets[j + 1])
  {
    match FindAsset(assets, symbol, portfolioId)
    case None => assets
    case Some(i) =>
      assert assets == assets[..i] + [assets[i]] + assets[i + 1..];
      assets[..i] + assets[i + 1..]
  }

  /** Adding keeps the keys unique. */
  lemma AddKeepsKeysUnique(assets: seq<Holding>, portfolioId: int, symbol: string, name: string, amount: real)
    requires UniqueKeys(assets)
    ensures UniqueKeys(AddedAssets(assets, portfolioId, symbol, name, amount))
  {
    var r := AddedAssets(assets, portfolioId, symbol, name, amount);
    if FindAsset(assets, symbol, portfolioId).None? {
      forall i, j | 0 <= i < j < |r|
        ensures r[i].symbol != r[j].symbol || r[i].portfolioId != r[j].portfolioId
      {
        assert r[i] == assets[i];
        if j < |assets| {
          assert r[j] == assets[j];
        } else {
          assert !Matches(assets[i], symbol, portfolioId);
        }
      }
    }
  }

  /** Updating keeps the keys unique. */
  lemma UpdateKeepsKeysUnique(assets: seq<Holding>, portfolioId: int, symbol: string, amount: real)
    requires UniqueKeys(assets)
    ensures UniqueKeys(UpdatedAssets(assets, portfolioId, symbol, amount))
  {
  }

  /** Removing keeps the keys unique, and with unique keys the key is then gone. */
  lemma RemoveDeletesKey(assets: seq<Holding>, portfolioId: int, symbol: string)
    requires UniqueKeys(assets)
    ensures UniqueKeys(RemovedAssets(assets, portfolioId, symbol))
    ensures FindAsset(RemovedAssets(assets, portfolioId, symbol), symbol, portfolioId).None?
  {
    var r := RemovedAssets(assets, portfolioId, symbol);
    var found := FindAsset(assets, symbol, portfolioId);
    if found.Some? {
      var i := found.value;
      forall j | 0 <= j < |r| ensures !Matches(r[j], symbol, portfolioId) {
        if j >= i {
          assert r[j] == assets[j + 1];
        }
      }
      forall a, b | 0 <= a < b < |r|
        ensures r[a].symbol != r[b].symbol || r[a].portfolioId != r[b].portfolioId
      {
        var a', b' := if a < i then a else a + 1, if b < i then b else b + 1;
        assert r[a] == assets[a'] && r[b] == assets[b'];
      }
    }
  }

  /** The holdings table as the store holds it. */
  class AssetStore {
    var assets: seq<Holding>

    constructor ()
      ensures assets == []
    {
      assets := [];
    }

    /** The holdings of one portfolio, in table order. */
    function HoldingsOf(portfolioId: int): (r: seq<Holding>)
      reads this
      ensures forall h :: h in r <==> h in assets && h.portfolioId == portfolioId
      ensures forall h :: multiset(r)[h] == if h.portfolioId == portfolioId then multiset(assets)[h] else 0
    {
      HoldingsIn(assets, portfolioId)
    }
  }

  /**
   * The holdings of one portfolio, in table order: each holding of the
   * portfolio as often as the table holds it, and no other holding.
   */
  function HoldingsIn(assets: seq<Holding>, portfolioId: int): (r: seq<Holding>)
    ensures forall h :: h in r <==> h in assets && h.portfolioId == portfolioId
    ensures forall h :: multiset(r)[h] == if h.portfolioId == portfolioId then multiset(assets)[h] else 0
  {
    if assets == [] then []
    else
      assert assets == [assets[0]] + assets[1..];
      (if assets[0].portfolioId == portfolioId then [assets[0]] else []) + HoldingsIn(assets[1..], portfolioId)
  }

  /**
   * Add a holding to the selected portfolio. An amount that is not a number
   * is rejected first; then a missing selection fails; then an existing
   * holding of the symbol is reported and kept as it is.
   */
  method AddAsset(manager: PortfolioManager, store: AssetStore, symbol: string, name: string, amount: Option<real>)
    returns (outcome: AssetOutcome)
    modifies store
    ensures amount.None? ==> outcome == InvalidAmount && store.assets == old(store.assets)
    ensures amount.Some? && manager.current.None? ==> outcome == NoPortfolio && store.assets == old(store.assets)
    ensures amount.Some? && manager.current.Some? ==>
      var id := manager.current.value.id;
      && store.assets == AddedAssets(old(store.assets), id, symbol, name, amount.value)
      && (outcome == AlreadyExists <==> FindAsset(old(store.assets), symbol, id).Some?)
      && (outcome == Added <==> FindAsset(old(store.assets), symbol, id).None?)
  {
    if amount.None? {
      return InvalidAmount;
    }
    var portfolioId := manager.GetCurrentPortfolioId();
    if portfolioId.None? {
      return NoPortfolio;
    }
    var existing := FindAsset(store.assets, symbol, portfolioId.value);
    if existing.Some? {
      outcome := AlreadyExists;
    } else {
      store.assets := store.assets + [Holding(symbol, name, amount.value, portfolioId.value)];
      outcome := Added;
    }
  }

  /**
   * Set the amount of a holding of the selected portfolio. A missing selection
   * fails first; then a missing holding; then an amount that is not a number.
   */
  method UpdateAsset(manager: PortfolioManager, store: AssetStore, symbol: string, newAmount: Option<real>)
    returns (outcome: AssetOutcome)
    modifies store
    ensures manager.current.None? ==> outcome == NoPortfolio && store.assets == old(store.assets)
    ensures manager.current.Some? ==>
      var id := manager.current.value.id;
      && (outcome == NotFound <==> FindAsset(old(store.assets), symbol, id).None?)
      && (outcome == InvalidAmount <==> FindAsset(old(store.assets), symbol, id).Some? && newAmount.None?)
      && (outcome == Updated <==> FindAsset(old(store.assets), symbol, id).Some? && newAmount.Some?)
      && store.assets == if outcome == Updated then UpdatedAssets(old(store.assets), id, symbol, newAmount.value)
                         else old(store.assets)
  {
    var portfolioId := manager.GetCurrentPortfolioId();
    if portfolioId.None? {
      return NoPortfolio;
    }
    var existing := FindAsset(store.assets, symbol, portfolioId.value);
    if existing.None? {
      return NotFound;
    }
    if newAmount.None? {
      return InvalidAmount;
    }
    var i := existing.value;
    store.assets := store.assets[i := store.assets[i].(amount := newAmount.value)];
    outcome := Updated;
  }

  /** Delete a holding of the selected portfolio; a missing holding is reported and nothing changes. */
  method RemoveAsset(manager: PortfolioManager, store: AssetStore, symbol: string)
    returns (outcome: AssetOutcome)
    modifies store
    ensures manager.current.None? ==> outcome == NoPortfolio && store.assets == old(store.assets)
    ensures manager.current.Some? ==>
      var id := manager.current.value.id;
      && store.assets == RemovedAssets(old(store.assets), id, symbol)
      && (outcome == NotFound <==> FindAsset(old(store.assets), symbol, id).None?)
      && (outcome == Removed <==> FindAsset(old(store.assets), symbol, id).Some?)
  {
    var portfolioId := manager.GetCurrentPortfolioId();
    if portfolioId.None? {
      return NoPortfolio;
    }
    var existing := FindAsset(store.assets, symbol, portfolioId.value);
    if existing.None? {
      return NotFound;
    }
    var i := existing.value;
    store.assets := store.assets[..i] + store.assets[i + 1..];
    outcome := Removed;
  }
}
