/**
 * The valuation side of the ledger: how `StockAccounts.Check` marks a
 * holding against its cost basis, the line it reports for it, and the
 * trade's market value, a sum over the holdings that does not depend on the
 * order in which they are visited.
 */
module Valuation {
  import opened Text
  import opened Purchase

  /** How the current price compares with the cost basis. */
  datatype Trend = Gain | Loss | Flat

  /**
   * Go's `boughtPrice < currentPrice` and `boughtPrice > currentPrice` give
   * the trend; both are false for a NaN cost basis, which therefore shows as
   * unchanged.
   */
  function TrendOf(boughtPrice: Basis, currentPrice: real): (t: Trend)
    ensures t == Gain <==> (boughtPrice.Finite? && boughtPrice.value < currentPrice) || boughtPrice == MinusInfinity
    ensures t == Loss <==> (boughtPrice.Finite? && boughtPrice.value > currentPrice) || boughtPrice == PlusInfinity
    ensures t == Flat <==> boughtPrice == Finite(currentPrice) || boughtPrice == NotANumber
  {
    if LessThan(boughtPrice, currentPrice) then Gain
    else if GreaterThan(boughtPrice, currentPrice) then Loss
    else Flat
  }

  /** The float comparison `b < x`. */
  predicate LessThan(b: Basis, x: real) {
    match b
    case Finite(v) => v < x
    case MinusInfinity => true
    case _ => false
  }

  /** The float comparison `b > x`. */
  predicate GreaterThan(b: Basis, x: real) {
    match b
    case Finite(v) => v > x
    case PlusInfinity => true
    case _ => false
  }

  /** The marker put before the current price. */
  function Marker(t: Trend): string {
    match t
    case Gain => "+$"
    case Loss => "-$"
    case Flat => "$"
  }

  /** The line `SYMBOL:SHARES:<marker>PRICE` reported for one holding. */
  function ValuationLine(symbol: string, sh: Share, currentPrice: real): string {
    symbol + ":" + Itoa(sh.shareNum) + ":" + Marker(TrendOf(sh.boughtPrice, currentPrice)) + FormatPrice(currentPrice)
  }

  /**
   * For a symbol without ':', splitting a valuation line on ':' gives back
   * the symbol, the share count in decimal, and the marker followed by the
   * current price.
   */
  lemma ValuationLineFields(symbol: string, sh: Share, currentPrice: real)
    requires ':' !in symbol
    ensures Split(ValuationLine(symbol, sh, currentPrice), ':')
      == [symbol, Itoa(sh.shareNum), Marker(TrendOf(sh.boughtPrice, currentPrice)) + FormatPrice(currentPrice)]
  {
    var shares, price := Itoa(sh.shareNum), Marker(TrendOf(sh.boughtPrice, currentPrice)) + FormatPrice(currentPrice);
    ItoaHasNoColon(sh.shareNum);
    PriceHasNoColon(Marker(TrendOf(sh.boughtPrice, currentPrice)), currentPrice);
    SplitFields(symbol, shares, price, ':');
    assert ValuationLine(symbol, sh, currentPrice) == symbol + [':'] + shares + [':'] + price;
  }

  /** The lines reported for the holdings of `order`, in that order. */
  function Valuations(order: seq<string>, stocks: map<string, Share>, quote: string -> real): seq<string>
    requires forall s :: s in order ==> s in stocks
  {
    seq(|order|, i requires 0 <= i < |order| => ValuationLine(order[i], stocks[order[i]], quote(order[i])))
  }

  lemma ValuationsAppend(order: seq<string>, stocks: map<string, Share>, quote: string -> real, symbol: string)
    requires forall s :: s in order ==> s in stocks
    requires symbol in stocks
    ensures Valuations(order + [symbol], stocks, quote) == Valuations(order, stocks, quote) + [ValuationLine(symbol, stocks[symbol], quote(symbol))]
  {
  }

  /** What the holding of `symbol` is worth at the current quote. */
  function Worth(stocks: map<string, Share>, symbol: string, quote: string -> real): real
    requires symbol in stocks
  {
    stocks[symbol].shareNum as real * quote(symbol)
  }

  /** The worth of the holdings named in `symbols`, added up in no particular order. */
  ghost function WorthOf(symbols: set<string>, stocks: map<string, Share>, quote: string -> real): real
    requires symbols <= stocks.Keys
    decreases symbols
  {
    if symbols == {} then 0.0
    else
      var s :| s in symbols;
      Worth(stocks, s, quote) + WorthOf(symbols - {s}, stocks, quote)
  }

  /** The current market value of a trade's holdings. */
  ghost function MarketValue(stocks: map<string, Share>, quote: string -> real): real {
    WorthOf(stocks.Keys, stocks, quote)
  }

  /** Any holding can be taken out of the sum first: the order of the sum does not matter. */
  lemma {:induction false} WorthOfRemove(symbols: set<string>, stocks: map<string, Share>, quote: string -> real, x: string)
    requires symbols <= stocks.Keys && x in symbols
    ensures WorthOf(symbols, stocks, quote) == Worth(stocks, x, quote) + WorthOf(symbols - {x}, stocks, quote)
    decreases symbols
  {
    var s :| s in symbols && WorthOf(symbols, stocks, quote) == Worth(stocks, s, quote) + WorthOf(symbols - {s}, stocks, quote);
    if s != x {
      WorthOfRemove(symbols - {s}, stocks, quote, x);
      WorthOfRemove(symbols - {x}, stocks, quote, s);
      assert symbols - {s} - {x} == symbols - {x} - {s};
    }
  }

  /** Holdings with no shares are worth nothing, whatever the quotes. */
  lemma {:induction false} NoSharesNoWorth(symbols: set<string>, stocks: map<string, Share>, quote: string -> real)
    requires symbols <= stocks.Keys
    requires forall s :: s in symbols ==> stocks[s].shareNum == 0
    ensures WorthOf(symbols, stocks, quote) == 0.0
    decreases symbols
  {
    if symbols != {} {
      var s :| s in symbols && WorthOf(symbols, stocks, quote) == Worth(stocks, s, quote) + WorthOf(symbols - {s}, stocks, quote);
      NoSharesNoWorth(symbols - {s}, stocks, quote);
      assert stocks[s].shareNum == 0;
      assert Worth(stocks, s, quote) == 0.0;
    }
  }

  /** With no short positions and positive quotes, a trade is never worth less than nothing. */
  lemma {:induction false} WorthNonNegative(symbols: set<string>, stocks: map<string, Share>, quote: string -> real)
    requires symbols <= stocks.Keys
    requires forall s :: s in symbols ==> stocks[s].shareNum >= 0 && quote(s) > 0.0
    ensures WorthOf(symbols, stocks, quote) >= 0.0
    decreases symbols
  {
    if symbols != {} {
      var s :| s in symbols && WorthOf(symbols, stocks, quote) == Worth(stocks, s, quote) + WorthOf(symbols - {s}, stocks, quote);
      WorthNonNegative(symbols - {s}, stocks, quote);
      assert stocks[s].shareNum >= 0 && quote(s) > 0.0;
      assert Worth(stocks, s, quote) >= 0.0;
    }
  }
}
