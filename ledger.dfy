/**
 * The trading service's account book: `StockAccounts` with its two RPC
 * operations, `Buy` and `Check`, and the process-wide trade id counter.
 */
module Ledger {
  import opened Wrappers
  import opened Text
  import opened Purchase
  import opened Valuation

  datatype CheckError = NoAccount | InvalidTradeId | UnknownTrade

  /** The error text each failure of `Check` is reported with. */
  function Message(e: CheckError): string {
    match e
    case NoAccount => "No account set up yet."
    case InvalidTradeId => "Invalid Trade ID. "
    case UnknownTrade => "This trade ID doesn't exists"
  }

  /** The three texts differ, so a client can tell the failures apart. */
  lemma MessagesDistinct(a: CheckError, b: CheckError)
    ensures Message(a) == Message(b) <==> a == b
  {
    assert Message(NoAccount)[0] == 'N' && Message(InvalidTradeId)[0] == 'I' && Message(UnknownTrade)[0] == 'T';
  }

  datatype CheckResponse = CheckResponse(stocks: seq<string>, currentMarketValue: real, uninvestedAmount: real)

  class StockAccounts {
    /** Trade id to portfolio; `None` is the map not yet made. */
    var stockPortfolio: Option<Accounts>
    /** The process-wide trade id counter: the last id handed out. */
    var tradeId: int

    /** Ids are positive and no trade has one above the counter, so the next id is always unused. */
    ghost predicate Valid()
      reads this
    {
      && tradeId >= 1
      && (stockPortfolio.Some? ==> forall id :: id in stockPortfolio.value ==> 1 <= id <= tradeId)
    }

    /** Process start: no accounts yet, and the counter seeded in [1, 99999]. */
    constructor (seed: int)
      requires 1 <= seed <= 99999
      ensures Valid()
      ensures stockPortfolio == None && tradeId == seed
    {
      stockPortfolio := None;
      tradeId := seed;
    }

    /**
     * Buys whole shares for each `SYMBOL:PCT%` entry of `allocation` with
     * PCT percent of `budget`, at the price the quote source gives for that
     * entry, under a new trade id; the unspent budget becomes the trade's
     * uninvested cash. The new state and the answer are those of `BuyEffect`.
     */
    method Buy(budget: real, allocation: string, quote: (nat, string) -> real) returns (r: Result<PurchaseResponse, BuyError>)
      requires Valid() && PositiveQuotes(quote)
      modifies this
      ensures Valid()
      ensures tradeId == old(tradeId) + 1
      ensures old(stockPortfolio).Some? ==> tradeId !in old(stockPortfolio).value
      ensures stockPortfolio.Some?
      ensures (stockPortfolio.value, r) == BuyEffect(old(stockPortfolio), tradeId, allocation, budget, quote)
    {
      tradeId := tradeId + 1;
      var id := tradeId;
      ghost var before := old(stockPortfolio);
      if stockPortfolio.None? {
        stockPortfolio := Some(map[id := Portfolio(map[], 0.0)]);
      }
      var entries := Split(allocation, ',');
      var amtSpent := 0.0;
      var stocks: seq<string> := [];
      ghost var progress := Progress(false, map[], [], 0.0);
      var i := 0;
      while i < |entries|
        invariant 0 <= i <= |entries|
        invariant tradeId == id
        invariant before.Some? ==> id !in before.value
        invariant Reached(entries, i, budget, quote, progress)
        invariant i > 0 ==> progress.started
        invariant i == 0 ==> progress.holdings == map[]
        invariant amtSpent == progress.spent
        invariant stocks == Lines(progress.fills)
        invariant stockPortfolio == Some(Midway(before, id, progress))
      {
        var bought := BuyEntry(id, entries[i], i, budget, quote, before, progress);
        ghost var out := Step(progress, i, entries[i], budget, quote);
        if bought.Failure? {
          SettleStopped(before, id, allocation, i, budget, quote, progress);
          return Failure(bought.error);
        }
        amtSpent := amtSpent + Cost(bought.value);
        stocks := stocks + [LineItem(bought.value)];
        LinesAppend(progress.fills, bought.value);
        ReachedNext(entries, i, budget, quote, progress);
        progress := out.p;
        i := i + 1;
      }
      var leftover := budget - amtSpent;
      var pocket := stockPortfolio.value[id];
      stockPortfolio := Some(stockPortfolio.value[id := pocket.(uninvestedAmount := pocket.uninvestedAmount + leftover)]);
      r := Success(PurchaseResponse(id, stocks, leftover));
      SettleRunning(before, id, allocation, budget, quote, progress);
    }

    /**
     * One pass of Buy's loop, on entry number `i` of the allocation: reads
     * the symbol and percentage, asks the quote source for the price, buys
     * the whole shares the entry's allotment allows, makes sure the trade's
     * portfolio exists and records the shares in it. The outcome and the new
     * accounts are those of `Step` on the loop's progress so far.
     */
    method BuyEntry(id: int, entry: string, i: nat, budget: real, quote: (nat, string) -> real,
                    ghost before: Option<Accounts>, ghost progress: Progress)
        returns (bought: Result<Fill, BuyError>)
      requires PositiveQuotes(quote)
      requires before.Some? ==> id !in before.value
      requires stockPortfolio == Some(Midway(before, id, progress))
      requires !progress.started ==> progress.holdings == map[]
      modifies this
      ensures tradeId == old(tradeId)
      ensures var out := Step(progress, i, entry, budget, quote);
        && stockPortfolio == Some(Midway(before, id, out.p))
        && (bought.Success? <==> out.Running?)
        && (bought.Failure? ==> bought.error == out.error)
        && (bought.Success? ==> out.p == Progress(true, out.p.holdings, progress.fills + [bought.value], progress.spent + Cost(bought.value)))
    {
      ghost var base: Accounts := if before.Some? then before.value else map[];
      var parsed := ParseEntry(entry);
      if parsed.Failure? {
        return Failure(parsed.error);
      }
      var symbol, percent := parsed.value.0, parsed.value.1;
      var currentPrice := quote(i, symbol);
      var shares := SharesFor(budget, percent, currentPrice);
      var fill := Fill(symbol, percent, currentPrice, shares);
      assert FillOfEntry(entry, i, budget, quote) == Success(fill);
      var accounts := stockPortfolio.value;
      if id !in accounts {
        accounts := accounts[id := Portfolio(map[], 0.0)];
        stockPortfolio := Some(accounts);
      }
      assert accounts == base[id := Portfolio(progress.holdings, 0.0)];
      var pocket := accounts[id];
      var added := AddShares(pocket.stocks, symbol, shares, currentPrice);
      stockPortfolio := Some(accounts[id := pocket.(stocks := added)]);
      UpdateTwice(base, id, Portfolio(progress.holdings, 0.0), Portfolio(added, 0.0));
      bought := Success(fill);
    }

    /**
     * Values the trade named by `tradeIdText` at the current quotes. Fails,
     * in this order, when no purchase was ever made, when the id is not a
     * 64-bit decimal integer, and when no trade has that id. Otherwise it
     * reports one line per holding, visited in an unspecified order
     * (`order`), the trade's stored uninvested cash, and its market value.
     * It changes nothing.
     */
    method Check(tradeIdText: string, quote: string -> real) returns (r: Result<CheckResponse, CheckError>, ghost order: seq<string>)
      ensures stockPortfolio.None? ==> r == Failure(NoAccount)
      ensures stockPortfolio.Some? && ParseInt(tradeIdText).None? ==> r == Failure(InvalidTradeId)
      ensures stockPortfolio.Some? && ParseInt(tradeIdText).Some? && ParseInt(tradeIdText).value !in stockPortfolio.value ==>
                r == Failure(UnknownTrade)
      ensures r.Success? <==> stockPortfolio.Some? && ParseInt(tradeIdText).Some? && ParseInt(tradeIdText).value in stockPortfolio.value
      ensures r.Success? ==>
                var pocket := stockPortfolio.value[ParseInt(tradeIdText).value];
                && r.value.uninvestedAmount == pocket.uninvestedAmount
                && r.value.currentMarketValue == MarketValue(pocket.stocks, quote)
                && |r.value.stocks| == |order|
                && (forall i, j :: 0 <= i < j < |order| ==> order[i] != order[j])
                && (forall s :: s in pocket.stocks <==> s in order)
                && r.value.stocks == Valuations(order, pocket.stocks, quote)
    {
      order := [];
      if stockPortfolio.None? {
        return Failure(NoAccount), order;
      }
      var parsed := ParseInt(tradeIdText);
      if parsed.None? {
        return Failure(InvalidTradeId), order;
      }
      var id := parsed.value;
      if id !in stockPortfolio.value {
        return Failure(UnknownTrade), order;
      }
      var pocket := stockPortfolio.value[id];
      var lines, currentMarketVal;
      lines, currentMarketVal, order := ValueHoldings(pocket.stocks, quote);
      r := Success(CheckResponse(lines, currentMarketVal, pocket.uninvestedAmount));
    }
  }

  /**
   * The loop of `Check` over one trade's holdings, visiting them in an
   * unspecified order (`order`): one valuation line per holding and the sum
   * of share count times current quote.
   */
  method ValueHoldings(stocks: map<string, Share>, quote: string -> real)
      returns (lines: seq<string>, currentMarketVal: real, ghost order: seq<string>)
    ensures currentMarketVal == MarketValue(stocks, quote)
    ensures |lines| == |order|
    ensures forall i, j :: 0 <= i < j < |order| ==> order[i] != order[j]
    ensures forall s :: s in stocks <==> s in order
    ensures lines == Valuations(order, stocks, quote)
  {
    currentMarketVal, lines, order := 0.0, [], [];
    var unvisited := stocks.Keys;
    while unvisited != {}
      invariant unvisited <= stocks.Keys
      invariant currentMarketVal + WorthOf(unvisited, stocks, quote) == MarketValue(stocks, quote)
      invariant forall s :: multiset(order)[s] <= 1
      invariant forall s :: s in stocks ==> (s in order <==> s !in unvisited)
      invariant forall s :: s in order ==> s in stocks
      invariant lines == Valuations(order, stocks, quote)
      decreases unvisited
    {
      var symbol :| symbol in unvisited;
      var sh := stocks[symbol];
      var currentPrice := quote(symbol);
      ValuationsAppend(order, stocks, quote, symbol);
      lines := lines + [ValuationLine(symbol, sh, currentPrice)];
      currentMarketVal := currentMarketVal + Worth(stocks, symbol, quote);
      WorthOfRemove(unvisited, stocks, quote, symbol);
      unvisited := unvisited - {symbol};
      order := order + [symbol];
    }
    NoRepeats(order);
  }

  /** A sequence holding each element at most once has no repeated positions. */
  lemma NoRepeats(order: seq<string>)
    requires forall s :: multiset(order)[s] <= 1
    ensures forall i, j :: 0 <= i < j < |order| ==> order[i] != order[j]
  {
    forall i, j | 0 <= i < j < |order|
      ensures order[i] != order[j]
    {
      TwoPositions(order, i, j);
    }
  }

  /** An element at two positions occurs at least twice. */
  lemma TwoPositions(order: seq<string>, i: nat, j: nat)
    requires i < j < |order|
    ensures order[i] == order[j] ==> multiset(order)[order[i]] >= 2
  {
    assert order == order[..i] + [order[i]] + order[i + 1..j] + [order[j]] + order[j + 1..];
  }

  lemma UpdateTwice(m: Accounts, k: int, a: Portfolio, b: Portfolio)
    ensures m[k := a][k := b] == m[k := b]
  {
  }

  /**
   * A client round trip: the id a successful `Buy` answers with, sent back
   * as decimal text, is found by `Check`, which then reports the leftover
   * of that purchase as the trade's uninvested cash. A failed `Buy` answers
   * with no id, so there is nothing to check.
   */
  method BuyThenCheck(accounts: StockAccounts, budget: real, allocation: string,
                      quote: (nat, string) -> real, laterQuote: string -> real)
      returns (bought: Result<PurchaseResponse, BuyError>, checked: Option<Result<CheckResponse, CheckError>>)
    requires accounts.Valid() && PositiveQuotes(quote)
    requires accounts.tradeId < MaxInt64
    modifies accounts
    ensures bought.Failure? <==> checked.None?
    ensures bought.Success? ==>
      && checked.Some? && checked.value.Success?
      && checked.value.value.uninvestedAmount == bought.value.uninvestedAmount
  {
    ghost var before := accounts.stockPortfolio;
    bought := accounts.Buy(budget, allocation, quote);
    if bought.Failure? {
      checked := None;
      return;
    }
    PurchaseSummary(before, accounts.tradeId, allocation, budget, quote);
    ParseIntItoa(bought.value.tradeId);
    var answer;
    ghost var order;
    answer, order := accounts.Check(Itoa(bought.value.tradeId), laterQuote);
    checked := Some(answer);
  }

  /** Two purchases in a row get increasing, hence different, trade ids. */
  method BuyTwice(accounts: StockAccounts, budget: real, allocation: string, quote: (nat, string) -> real,
                  budget2: real, allocation2: string, quote2: (nat, string) -> real)
      returns (first: Result<PurchaseResponse, BuyError>, second: Result<PurchaseResponse, BuyError>)
    requires accounts.Valid() && PositiveQuotes(quote) && PositiveQuotes(quote2)
    modifies accounts
    ensures first.Success? && second.Success? ==> first.value.tradeId < second.value.tradeId
    ensures second.Success? ==> second.value.tradeId == accounts.tradeId
  {
    ghost var before := accounts.stockPortfolio;
    first := accounts.Buy(budget, allocation, quote);
    PurchaseSummary(before, accounts.tradeId, allocation, budget, quote);
    ghost var middle := accounts.stockPortfolio;
    second := accounts.Buy(budget2, allocation2, quote2);
    PurchaseSummary(middle, accounts.tradeId, allocation2, budget2, quote2);
  }
}
