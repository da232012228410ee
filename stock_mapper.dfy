/**
 * The renderer's stock lookups (`StockMapper`). The module-level stock list is
 * passed in as `stocks`; loading it over IPC is not part of this model.
 */
module StockMapper {
  import opened Wrappers
  import opened CommonType
  import opened Lists

  /** A stock (`ResStockModel`), with the fields the mapper reads. */
  datatype ResStockModel = ResStockModel(stockSeq: int, name: string, currency: Currency)

  /** What `getStock` throws: "stock not found", with the identifier asked for. */
  datatype StockError = StockNotFound(stockSeq: int)

  /** An account's holding of one stock as `StockBuyMapper.getAccount` reports it. */
  datatype StockBuy = StockBuy(quantity: real, buyAmount: real)

  /** The `find` test for a stock with the given identifier. */
  function HasStockSeq(stockSeq: int): ResStockModel -> bool {
    (s: ResStockModel) => s.stockSeq == stockSeq
  }

  /** `getStock`: the first stock with the identifier; throws when the list has none. */
  function GetStock(stocks: seq<ResStockModel>, stockSeq: int): (r: Result<ResStockModel, StockError>)
    ensures r.Err? <==> forall i :: 0 <= i < |stocks| ==> stocks[i].stockSeq != stockSeq
    ensures r.Err? ==> r.error == StockNotFound(stockSeq)
    ensures forall i :: IsFirst(stocks, HasStockSeq(stockSeq), i) ==> r == Ok(stocks[i])
  {
    match Find(stocks, HasStockSeq(stockSeq))
    case None => Err(StockNotFound(stockSeq))
    case Some(stock) => Ok(stock)
  }

  /** `getStockList`: the current list. */
  function GetStockList(stocks: seq<ResStockModel>): (r: seq<ResStockModel>)
    ensures r == stocks
  {
    stocks
  }

  /** The label of a stock: its name followed by its currency in parentheses. */
  function StockLabel(stock: ResStockModel): string {
    stock.name + " (" + stock.currency + ")"
  }

  /** The select-box entry of a stock. */
  function StockOption(stock: ResStockModel): SelectOption {
    SelectOption(stock.stockSeq, StockLabel(stock))
  }

  /** `getStockOptionList`: one entry per stock, in list order. */
  function GetStockOptionList(stocks: seq<ResStockModel>): (r: seq<SelectOption>)
    ensures |r| == |stocks|
    ensures forall i :: 0 <= i < |r| ==>
              r[i].value == stocks[i].stockSeq && r[i].text == stocks[i].name + " (" + stocks[i].currency + ")"
  {
    MapSeq(GetStockList(stocks), StockOption)
  }

  /** "0 shares": the holding part of the label when the account holds none of the stock. */
  const NoHolding: string := "0주"

  /**
   * The holding part of a stock's label: `describe` of the holding when the
   * account holds a positive quantity, otherwise `NoHolding`. `describe` stands
   * for the share-count, amount and average-price formatting, which is not part
   * of this model.
   */
  function HoldingInfo(holding: Option<StockBuy>, currency: Currency, describe: (StockBuy, Currency) -> string): string {
    if holding.Some? && holding.value.quantity > 0.0 then describe(holding.value, currency) else NoHolding
  }

  /** The holding of one stock in one account, absent when there is none. */
  function HoldingOf(holdings: map<(AccountSeq, int), StockBuy>, accountSeq: AccountSeq, stockSeq: int): Option<StockBuy> {
    if (accountSeq, stockSeq) in holdings then Some(holdings[(accountSeq, stockSeq)]) else None
  }

  /** `getStockOptionBalanceList`: one entry per stock, in list order, labelled with the account's holding. */
  function GetStockOptionBalanceList(stocks: seq<ResStockModel>, accountSeq: AccountSeq,
                                     holdings: map<(AccountSeq, int), StockBuy>,
                                     describe: (StockBuy, Currency) -> string): (r: seq<SelectOption>)
    ensures |r| == |stocks|
    ensures forall i :: 0 <= i < |r| ==> r[i].value == stocks[i].stockSeq
    ensures forall i :: 0 <= i < |r| && (accountSeq, stocks[i].stockSeq) in holdings
                                         && holdings[(accountSeq, stocks[i].stockSeq)].quantity > 0.0 ==>
              r[i].text == StockLabel(stocks[i]) + ": "
                           + describe(holdings[(accountSeq, stocks[i].stockSeq)], stocks[i].currency)
    ensures forall i :: 0 <= i < |r| && ((accountSeq, stocks[i].stockSeq) !in holdings
                                         || holdings[(accountSeq, stocks[i].stockSeq)].quantity <= 0.0) ==>
              r[i].text == StockLabel(stocks[i]) + ": " + NoHolding
  {
    MapSeq(GetStockList(stocks), (stock: ResStockModel) =>
      SelectOption(stock.stockSeq,
                   StockLabel(stock) + ": "
                   + HoldingInfo(HoldingOf(holdings, accountSeq, stock.stockSeq), stock.currency, describe)))
  }
}
