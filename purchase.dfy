/**
 * The purchase side of the virtual-trading ledger: the data model
 * (`Share`, `Portfolio`), the per-entry arithmetic of `StockAccounts.Buy`
 * (whole shares, weighted-average cost basis), and `Replay`, the value-level
 * account of Buy's loop over the allocation entries that the imperative
 * `StockAccounts.Buy` is proved against.
 */
module Purchase {
  import opened Wrappers
  import opened Text

  /**
   * A float32 cost basis: a number, or what IEEE arithmetic makes of an
   * average whose share total is 0 (NaN for 0/0, an infinity otherwise).
   */
  datatype Basis = Finite(value: real) | PlusInfinity | MinusInfinity | NotANumber

  /** One holding of one symbol in one trade. */
  datatype Share = Share(shareNum: int, boughtPrice: Basis)

  /** The holdings of one trade and the cash it left uninvested. */
  datatype Portfolio = Portfolio(stocks: map<string, Share>, uninvestedAmount: real)

  /** Trade id to portfolio; absent (`None`) until the first purchase. */
  type Accounts = map<int, Portfolio>

  datatype PurchaseResponse = PurchaseResponse(tradeId: int, stocks: seq<string>, uninvestedAmount: real)

  /** An entry without ':': reading its percentage indexes past the end of the fields and panics. */
  datatype BuyError = MissingPercentage(entry: string)

  /** The quote source answers with a positive price for every call. */
  ghost predicate PositiveQuotes(quote: (nat, string) -> real) {
    forall i, s :: quote(i, s) > 0.0
  }

  // ---------------------------------------------------------------------------
  // One allocation entry

  /** What an entry asks to spend: `budget × percent / 100`. */
  function Allotment(budget: real, percent: real): real {
    budget * (percent / 100.0)
  }

  /**
   * Whole shares bought with the allotment at `price`: the largest count
   * whose cost does not exceed the allotment.
   */
  function SharesFor(budget: real, percent: real, price: real): (shares: int)
    requires price > 0.0
    ensures shares as real * price <= Allotment(budget, percent)
    ensures Allotment(budget, percent) < shares as real * price + price
  {
    var x := Allotment(budget, percent) / price;
    var f := x.Floor;
    assert f as real <= x < (f + 1) as real;
    assert f as real * price <= x * price;
    assert x * price < (f + 1) as real * price == f as real * price + price;
    assert x * price == Allotment(budget, percent);
    f
  }

  /** Percentages that add up to at most 100 allot at most the budget. */
  lemma AllotmentWithinBudget(budget: real, percent: real)
    requires budget >= 0.0 && percent <= 100.0
    ensures Allotment(budget, percent) <= budget
  {
    assert percent / 100.0 <= 1.0;
    assert budget * (percent / 100.0) <= budget * 1.0;
  }

  /** A non-negative allotment buys a non-negative number of shares, within one price of it. */
  lemma AllotmentBounds(budget: real, percent: real, price: real)
    requires price > 0.0 && budget >= 0.0 && percent >= 0.0
    ensures var shares := SharesFor(budget, percent, price);
      && shares >= 0
      && 0.0 <= shares as real * price <= Allotment(budget, percent)
      && Allotment(budget, percent) - shares as real * price < price
  {
    assert Allotment(budget, percent) >= 0.0;
  }

  /**
   * The symbol and percentage of one entry `SYMBOL:PCT%[:ignored...]`: split
   * on ':', the symbol is the first field, the percentage the second with
   * one trailing '%' removed; an unreadable percentage counts as 0.
   */
  function ParseEntry(entry: string): (r: Result<(string, real), BuyError>)
    ensures r.Failure? <==> ':' !in entry
    ensures r.Failure? ==> r.error == MissingPercentage(entry)
    ensures r.Success? ==> ':' !in r.value.0
  {
    var fields := Split(entry, ':');
    SplitCount(entry, ':');
    if |fields| < 2 then Failure(MissingPercentage(entry))
    else Success((fields[0], ParseFloat(TrimPercent(fields[1]))))
  }

  /** A well-formed entry yields its symbol and its percentage; later fields do not matter. */
  lemma ParseEntryWellFormed(symbol: string, percent: string, rest: string)
    requires ':' !in symbol && ':' !in percent
    requires rest == [] || rest[0] == ':'
    ensures ParseEntry(symbol + ":" + (percent + rest)) == Success((symbol, ParseFloat(TrimPercent(percent))))
  {
    SplitAfterPiece(symbol, ':', percent + rest);
    if rest == [] {
      assert percent + rest == percent;
      SplitWhole(percent, ':');
    } else {
      assert percent + rest == percent + [':'] + rest[1..];
      SplitAfterPiece(percent, ':', rest[1..]);
    }
  }

  // ---------------------------------------------------------------------------
  // Recording a purchase in a trade's holdings

  /** What a holding with a numeric cost basis cost in all: share count times average cost. */
  function Invested(sh: Share): real
    requires sh.boughtPrice.Finite?
  {
    sh.shareNum as real * sh.boughtPrice.value
  }

  /** `float32(n) * b`: zero times an infinity is NaN. */
  function Scale(n: int, b: Basis): Basis {
    match b
    case Finite(v) => Finite(n as real * v)
    case NotANumber => NotANumber
    case PlusInfinity => if n == 0 then NotANumber else if n > 0 then PlusInfinity else MinusInfinity
    case MinusInfinity => if n == 0 then NotANumber else if n > 0 then MinusInfinity else PlusInfinity
  }

  /** `x + b` for a number `x`: an infinity or NaN absorbs it. */
  function Shift(x: real, b: Basis): Basis {
    match b
    case Finite(v) => Finite(x + v)
    case _ => b
  }

  /** `b / float32(n)`; dividing by zero gives NaN for 0 and an infinity of the dividend's sign otherwise. */
  function Divide(b: Basis, n: int): Basis {
    match b
    case Finite(v) =>
      if n != 0 then Finite(v / n as real)
      else if v > 0.0 then PlusInfinity
      else if v < 0.0 then MinusInfinity
      else NotANumber
    case NotANumber => NotANumber
    case PlusInfinity => if n >= 0 then PlusInfinity else MinusInfinity
    case MinusInfinity => if n >= 0 then MinusInfinity else PlusInfinity
  }

  /**
   * Records `shares` bought at `price`: a new symbol gets a holding at that
   * price (even for 0 shares); a known one gets the quantity-weighted average
   * of its cost basis and the new price, computed as float arithmetic does,
   * so a share total of 0 leaves NaN or an infinity as the cost basis.
   */
  function AddShares(stocks: map<string, Share>, symbol: string, shares: int, price: real): (r: map<string, Share>)
    ensures r.Keys == stocks.Keys + {symbol}
    ensures forall s :: s in stocks && s != symbol ==> r[s] == stocks[s]
    ensures symbol !in stocks ==> r[symbol] == Share(shares, Finite(price))
    ensures r[symbol].shareNum == (if symbol in stocks then stocks[symbol].shareNum else 0) + shares
    ensures r[symbol].boughtPrice.Finite? ==> symbol !in stocks || stocks[symbol].boughtPrice.Finite?
    ensures symbol in stocks && stocks[symbol].boughtPrice.Finite? ==> (r[symbol].boughtPrice.Finite? <==> r[symbol].shareNum != 0)
    ensures r[symbol].boughtPrice.Finite? ==>
              Invested(r[symbol]) == (if symbol in stocks then Invested(stocks[symbol]) else 0.0) + shares as real * price
  {
    if symbol !in stocks then
      stocks[symbol := Share(shares, Finite(price))]
    else
      var held := stocks[symbol];
      var total := Shift(shares as real * price, Scale(held.shareNum, held.boughtPrice));
      var count := shares + held.shareNum;
      var average := Divide(total, count);
      assert average.Finite? && total.Finite? ==> count as real * average.value == total.value;
      stocks[symbol := Share(held.shareNum + shares, average)]
  }

  /** With no sale involved, the new cost basis lies between the old one and the new price. */
  lemma AverageBetween(held: Share, shares: int, price: real)
    requires held.boughtPrice.Finite?
    requires held.shareNum >= 0 && shares >= 0 && held.shareNum + shares > 0
    ensures var b := AddShares(map["s" := held], "s", shares, price)["s"].boughtPrice;
      && b.Finite?
      && (held.boughtPrice.value <= price ==> held.boughtPrice.value <= b.value <= price)
      && (price <= held.boughtPrice.value ==> price <= b.value <= held.boughtPrice.value)
  {
    var n, m := held.shareNum as real, shares as real;
    var r := AddShares(map["s" := held], "s", shares, price);
    assert r["s"].shareNum as real == n + m;
    MeanBetween(n, m, held.boughtPrice.value, price, r["s"].boughtPrice.value);
  }

  /**
   * Buying zero shares of a symbol the trade holds zero shares of, at any
   * price, leaves NaN as its cost basis: the average is 0/0.
   */
  lemma ZeroOnZeroIsNaN(stocks: map<string, Share>, symbol: string, price: real)
    requires symbol in stocks && stocks[symbol].shareNum == 0 && stocks[symbol].boughtPrice.Finite?
    ensures AddShares(stocks, symbol, 0, price)[symbol] == Share(0, NotANumber)
  {
  }

  /** Once the cost basis is NaN it stays NaN, whatever is bought. */
  lemma NaNStays(stocks: map<string, Share>, symbol: string, shares: int, price: real)
    requires symbol in stocks && stocks[symbol].boughtPrice == NotANumber
    ensures AddShares(stocks, symbol, shares, price)[symbol].boughtPrice == NotANumber
  {
  }

  /** A weighted mean of two values with non-negative weights lies between them. */
  lemma MeanBetween(n: real, m: real, a: real, b: real, mean: real)
    requires n >= 0.0 && m >= 0.0 && n + m > 0.0
    requires (n + m) * mean == n * a + m * b
    ensures a <= b ==> a <= mean <= b
    ensures b <= a ==> b <= mean <= a
  {
    // mean - a and b - mean are the weighted shares of b - a
    SignOfQuotient(mean - a, n + m, m * (b - a));
    SignOfQuotient(b - mean, n + m, n * (b - a));
    if a <= b {
      assert m * (b - a) >= 0.0 && n * (b - a) >= 0.0;
    } else {
      assert m * (b - a) <= 0.0 && n * (b - a) <= 0.0;
    }
  }

  /** Dividing by a positive number keeps the sign. */
  lemma SignOfQuotient(x: real, w: real, y: real)
    requires w > 0.0 && w * x == y
    ensures y >= 0.0 ==> x >= 0.0
    ensures y <= 0.0 ==> x <= 0.0
  {
    if x < 0.0 {
      assert w * x < 0.0;
    } else if x > 0.0 {
      assert w * x > 0.0;
    }
  }

  // ---------------------------------------------------------------------------
  // Buy's loop over the entries, as values

  /** One processed entry: what was asked for, the quote used, the shares bought. */
  datatype Fill = Fill(symbol: string, percent: real, price: real, shares: int)

  function Cost(f: Fill): real {
    f.shares as real * f.price
  }

  /** The line item `SYMBOL:SHARES:$PRICE` reported for a fill. */
  function LineItem(f: Fill): string {
    f.symbol + ":" + Itoa(f.shares) + ":$" + FormatPrice(f.price)
  }

  /**
   * For a symbol without ':', splitting a line item on ':' gives back the
   * symbol, the share count in decimal and the price with a '$' in front.
   */
  lemma LineItemFields(f: Fill)
    requires ':' !in f.symbol
    ensures Split(LineItem(f), ':') == [f.symbol, Itoa(f.shares), "$" + FormatPrice(f.price)]
  {
    var shares, price := Itoa(f.shares), "$" + FormatPrice(f.price);
    ItoaHasNoColon(f.shares);
    PriceHasNoColon("$", f.price);
    SplitFields(f.symbol, shares, price, ':');
    assert LineItem(f) == f.symbol + [':'] + shares + [':'] + price;
  }

  /**
   * A client reading a line item back recovers the symbol and the share
   * count exactly, and the price to within half a cent.
   */
  lemma LineItemReadsBack(f: Fill)
    requires ':' !in f.symbol && MinInt64 <= f.shares <= MaxInt64
    ensures var fields := Split(LineItem(f), ':');
      && |fields| == 3 && fields[0] == f.symbol
      && ParseInt(fields[1]) == Some(f.shares)
      && |fields[2]| > 0 && fields[2][0] == '$'
      && -0.005 <= ParseFloat(fields[2][1..]) - f.price <= 0.005
  {
    LineItemFields(f);
    ParseIntItoa(f.shares);
    ParseFloatFormatPrice(f.price);
    assert ("$" + FormatPrice(f.price))[1..] == FormatPrice(f.price);
  }

  /** The line items of the fills, in fill order. */
  function Lines(fills: seq<Fill>): seq<string>
  {
    seq(|fills|, i requires 0 <= i < |fills| => LineItem(fills[i]))
  }

  /**
   * The fill of the `i`-th entry, which names `symbol` at `percent`: at the
   * positive quote for that entry it buys whole shares costing at most the
   * allotment and less than one share short of it, and no negative count
   * when the budget and the percentage are not negative.
   */
  function FillFor(i: nat, symbol: string, percent: real, budget: real, quote: (nat, string) -> real): (f: Fill)
    requires PositiveQuotes(quote)
    ensures f.symbol == symbol && f.percent == percent && f.price == quote(i, symbol) > 0.0
    ensures Cost(f) <= Allotment(budget, percent) < Cost(f) + f.price
    ensures budget >= 0.0 && percent >= 0.0 ==> f.shares >= 0
  {
    var price := quote(i, symbol);
    if budget >= 0.0 && percent >= 0.0 then
      AllotmentBounds(budget, percent, price);
      Fill(symbol, percent, price, SharesFor(budget, percent, price))
    else
      Fill(symbol, percent, price, SharesFor(budget, percent, price))
  }

  /**
   * Where the loop stands: whether the trade's portfolio has been set up by
   * the loop (`started`), the trade's holdings, the fills so far, and the
   * running total spent on them.
   */
  datatype Progress = Progress(started: bool, holdings: map<string, Share>, fills: seq<Fill>, spent: real)

  /** The loop either is still running or stopped at a failing entry. */
  datatype Outcome = Running(p: Progress) | Stopped(p: Progress, error: BuyError)

  /** The fill that entry number `i` asks for, if the entry can be read. */
  function FillOfEntry(entry: string, i: nat, budget: real, quote: (nat, string) -> real): Result<Fill, BuyError>
    requires PositiveQuotes(quote)
  {
    match ParseEntry(entry)
    case Failure(e) => Failure(e)
    case Success(parsed) => Success(FillFor(i, parsed.0, parsed.1, budget, quote))
  }

  /** Processes entry number `i`. */
  function Step(p: Progress, i: nat, entry: string, budget: real, quote: (nat, string) -> real): Outcome
    requires PositiveQuotes(quote)
  {
    match FillOfEntry(entry, i, budget, quote)
    case Failure(e) => Stopped(p, e)
    case Success(fill) =>
      Running(Progress(true, AddShares(p.holdings, fill.symbol, fill.shares, fill.price), p.fills + [fill], p.spent + Cost(fill)))
  }

  /** The loop over `entries`, for a trade that starts with no holdings. */
  function Replay(entries: seq<string>, budget: real, quote: (nat, string) -> real): Outcome
    requires PositiveQuotes(quote)
    decreases |entries|, 1
  {
    if entries == [] then Running(Progress(false, map[], [], 0.0))
    else ReplayLast(entries, budget, quote)
  }

  /** The loop over the entries before the last one of `entries`, followed by that last one. */
  function ReplayLast(entries: seq<string>, budget: real, quote: (nat, string) -> real): Outcome
    requires PositiveQuotes(quote) && entries != []
    decreases |entries|, 0
  {
    var last := |entries| - 1;
    match Replay(entries[..last], budget, quote)
    case Stopped(p, e) => Stopped(p, e)
    case Running(p) => Step(p, last, entries[last], budget, quote)
  }

  /** The loop, run over the first `n` entries, is still running with progress `p`. */
  ghost predicate Reached(entries: seq<string>, n: nat, budget: real, quote: (nat, string) -> real, p: Progress)
    requires PositiveQuotes(quote)
  {
    n <= |entries| && Replay(entries[..n], budget, quote) == Running(p)
  }

  /** Sum of the costs of the fills. */
  function Spent(fills: seq<Fill>): real {
    if fills == [] then 0.0 else Spent(fills[..|fills| - 1]) + Cost(fills[|fills| - 1])
  }

  /** Sum of the percentages asked for. */
  function TotalPercent(fills: seq<Fill>): real {
    if fills == [] then 0.0 else TotalPercent(fills[..|fills| - 1]) + fills[|fills| - 1].percent
  }

  /** Sum of the quotes used. */
  function TotalPrice(fills: seq<Fill>): real {
    if fills == [] then 0.0 else TotalPrice(fills[..|fills| - 1]) + fills[|fills| - 1].price
  }

  /** Shares of `symbol` over the fills. */
  function SharesOf(fills: seq<Fill>, symbol: string): int {
    if fills == [] then 0
    else SharesOf(fills[..|fills| - 1], symbol) + (if fills[|fills| - 1].symbol == symbol then fills[|fills| - 1].shares else 0)
  }

  /** Money spent on `symbol` over the fills. */
  function CostOf(fills: seq<Fill>, symbol: string): real {
    if fills == [] then 0.0
    else CostOf(fills[..|fills| - 1], symbol) + (if fills[|fills| - 1].symbol == symbol then Cost(fills[|fills| - 1]) else 0.0)
  }

  function Symbols(fills: seq<Fill>): set<string> {
    set i | 0 <= i < |fills| :: fills[i].symbol
  }

  /**
   * The accounts while Buy's loop is under way on trade `id`: the portfolio
   * exists once the loop has started it, or from the outset when Buy had to
   * make the accounts; its cash is still 0.
   */
  function Midway(before: Option<Accounts>, id: int, p: Progress): Accounts {
    var base := if before.Some? then before.value else map[];
    if before.None? || p.started then base[id := Portfolio(p.holdings, 0.0)] else base
  }

  /** The state and the answer Buy leaves behind for trade `id`. */
  function Settle(before: Option<Accounts>, id: int, out: Outcome, budget: real): (Accounts, Result<PurchaseResponse, BuyError>)
  {
    var base := if before.Some? then before.value else map[];
    match out
    case Running(p) =>
      var leftover := budget - p.spent;
      (base[id := Portfolio(p.holdings, 0.0 + leftover)], Success(PurchaseResponse(id, Lines(p.fills), leftover)))
    case Stopped(p, e) =>
      (Midway(before, id, p), Failure(e))
  }

  /** Buy on trade `id` with the accounts `before`: the accounts after, and the answer. */
  function BuyEffect(before: Option<Accounts>, id: int, allocation: string, budget: real, quote: (nat, string) -> real): (Accounts, Result<PurchaseResponse, BuyError>)
    requires PositiveQuotes(quote)
  {
    Settle(before, id, Replay(Split(allocation, ','), budget, quote), budget)
  }

  // ---------------------------------------------------------------------------
  // What Buy's loop guarantees

  /** Once the loop has stopped at an entry, the entries after it change nothing. */
  lemma {:induction false} StoppedStays(entries: seq<string>, k: nat, budget: real, quote: (nat, string) -> real)
    requires PositiveQuotes(quote)
    requires k <= |entries|
    requires Replay(entries[..k], budget, quote).Stopped?
    ensures Replay(entries, budget, quote) == Replay(entries[..k], budget, quote)
    decreases |entries| - k
  {
    if k < |entries| {
      var front := entries[..|entries| - 1];
      assert front[..k] == entries[..k];
      StoppedStays(front, k, budget, quote);
    } else {
      assert entries[..k] == entries;
    }
  }

  /** A running loop takes the next entry with `Step`. */
  lemma ReplayNext(entries: seq<string>, i: nat, budget: real, quote: (nat, string) -> real)
    requires PositiveQuotes(quote)
    requires i < |entries| && Replay(entries[..i], budget, quote).Running?
    ensures Replay(entries[..i + 1], budget, quote) == Step(Replay(entries[..i], budget, quote).p, i, entries[i], budget, quote)
  {
    assert entries[..i + 1][..i] == entries[..i];
  }

  /** A running loop that takes entry `i` without error is still running after it. */
  lemma ReachedNext(entries: seq<string>, i: nat, budget: real, quote: (nat, string) -> real, p: Progress)
    requires PositiveQuotes(quote)
    requires i < |entries| && Reached(entries, i, budget, quote, p)
    requires Step(p, i, entries[i], budget, quote).Running?
    ensures Reached(entries, i + 1, budget, quote, Step(p, i, entries[i], budget, quote).p)
  {
    ReplayNext(entries, i, budget, quote);
  }

  /** One more fill adds its line item at the end. */
  lemma LinesAppend(fills: seq<Fill>, f: Fill)
    ensures Lines(fills + [f]) == Lines(fills) + [LineItem(f)]
  {
  }

  /** An entry that cannot be applied ends the loop with its error, whatever follows. */
  lemma ReplayStopsAt(entries: seq<string>, i: nat, budget: real, quote: (nat, string) -> real)
    requires PositiveQuotes(quote)
    requires i < |entries| && Replay(entries[..i], budget, quote).Running?
    requires Step(Replay(entries[..i], budget, quote).p, i, entries[i], budget, quote).Stopped?
    ensures Replay(entries, budget, quote) == Step(Replay(entries[..i], budget, quote).p, i, entries[i], budget, quote)
  {
    ReplayNext(entries, i, budget, quote);
    StoppedStays(entries, i + 1, budget, quote);
    assert entries[..|entries|] == entries;
  }

  /** Buy's answer when entry `i` cannot be applied: the accounts as that entry left them, and its error. */
  lemma SettleStopped(before: Option<Accounts>, id: int, allocation: string, i: nat, budget: real, quote: (nat, string) -> real, p: Progress)
    requires PositiveQuotes(quote)
    requires i < |Split(allocation, ',')| && Reached(Split(allocation, ','), i, budget, quote, p)
    requires Step(p, i, Split(allocation, ',')[i], budget, quote).Stopped?
    ensures var out := Step(p, i, Split(allocation, ',')[i], budget, quote);
      BuyEffect(before, id, allocation, budget, quote) == (Midway(before, id, out.p), Failure(out.error))
  {
    ReplayStopsAt(Split(allocation, ','), i, budget, quote);
  }

  /** Buy's answer once every entry was applied: the leftover is added to the trade's cash. */
  lemma SettleRunning(before: Option<Accounts>, id: int, allocation: string, budget: real, quote: (nat, string) -> real, p: Progress)
    requires PositiveQuotes(quote)
    requires Reached(Split(allocation, ','), |Split(allocation, ',')|, budget, quote, p)
    ensures var base := if before.Some? then before.value else map[];
      var leftover := budget - p.spent;
      && BuyEffect(before, id, allocation, budget, quote) ==
           (base[id := Portfolio(p.holdings, 0.0 + leftover)], Success(PurchaseResponse(id, Lines(p.fills), leftover)))
      && Midway(before, id, p)[id := Portfolio(p.holdings, 0.0 + leftover)] == base[id := Portfolio(p.holdings, 0.0 + leftover)]
  {
    var entries := Split(allocation, ',');
    assert entries[..|entries|] == entries;
    RunningStarted(entries, budget, quote);
    var base: Accounts := if before.Some? then before.value else map[];
    var leftover := budget - p.spent;
    assert base[id := Portfolio(p.holdings, 0.0)][id := Portfolio(p.holdings, 0.0 + leftover)] == base[id := Portfolio(p.holdings, 0.0 + leftover)];
  }

  /** A loop that ran over at least one entry has set up the trade's portfolio. */
  lemma RunningStarted(entries: seq<string>, budget: real, quote: (nat, string) -> real)
    requires PositiveQuotes(quote)
    requires entries != [] && Replay(entries, budget, quote).Running?
    ensures Replay(entries, budget, quote).p.started
  {
    assert Replay(entries, budget, quote) == ReplayLast(entries, budget, quote);
  }

  /** Buy's answer when the loop stopped: the accounts as the loop left them, and the loop's error. */
  lemma SettleStoppedAll(before: Option<Accounts>, id: int, allocation: string, budget: real, quote: (nat, string) -> real)
    requires PositiveQuotes(quote)
    requires Replay(Split(allocation, ','), budget, quote).Stopped?
    ensures var out := Replay(Split(allocation, ','), budget, quote);
      BuyEffect(before, id, allocation, budget, quote) == (Midway(before, id, out.p), Failure(out.error))
  {
  }

  /** What one entry does to the fills: a readable entry adds its fill, an unreadable one stops the loop. */
  lemma StepFills(p: Progress, i: nat, entry: string, budget: real, quote: (nat, string) -> real)
    requires PositiveQuotes(quote)
    ensures var out := Step(p, i, entry, budget, quote);
      match FillOfEntry(entry, i, budget, quote)
      case Failure(e) => out == Stopped(p, e)
      case Success(f) => out.Running? && out.p.fills == p.fills + [f]
  {
  }

  /**
   * A completed loop has one fill for every entry; a stopped one stopped at
   * the first entry without ':', with that entry's error.
   */
  lemma {:induction false} ReplayStopsAtFirstError(entries: seq<string>, budget: real, quote: (nat, string) -> real)
    requires PositiveQuotes(quote)
    ensures var out := Replay(entries, budget, quote);
      && |out.p.fills| <= |entries|
      && (out.Running? ==> |out.p.fills| == |entries|)
      && (out.Stopped? ==>
            && |out.p.fills| < |entries|
            && ':' !in entries[|out.p.fills|]
            && out.error == MissingPercentage(entries[|out.p.fills|]))
    decreases |entries|
  {
    if entries != [] {
      var last := |entries| - 1;
      var front := entries[..last];
      ReplayStopsAtFirstError(front, budget, quote);
      assert Replay(entries, budget, quote) == ReplayLast(entries, budget, quote);
      var before := Replay(front, budget, quote);
      if before.Running? {
        StepFills(before.p, last, entries[last], budget, quote);
      } else {
        assert entries[|before.p.fills|] == front[|before.p.fills|];
      }
    }
  }

  /** The fills are those of the entries, one per entry and in input order. */
  lemma {:induction false} ReplayFollowsEntries(entries: seq<string>, budget: real, quote: (nat, string) -> real)
    requires PositiveQuotes(quote)
    ensures var out := Replay(entries, budget, quote);
      && |out.p.fills| <= |entries|
      && (forall i :: 0 <= i < |out.p.fills| ==> FillOfEntry(entries[i], i, budget, quote) == Success(out.p.fills[i]))
    decreases |entries|
  {
    if entries != [] {
      var front := entries[..|entries| - 1];
      ReplayFollowsEntries(front, budget, quote);
      ReplayExtends(entries, budget, quote);
      var previous := Replay(front, budget, quote).p.fills;
      var fills := Replay(entries, budget, quote).p.fills;
      forall i | 0 <= i < |fills|
        ensures FillOfEntry(entries[i], i, budget, quote) == Success(fills[i])
      {
        if i < |previous| {
          assert entries[i] == front[i] && fills[i] == previous[i];
        }
      }
    }
  }

  /** The last entry adds at most its own fill to those of the entries before it. */
  lemma ReplayExtends(entries: seq<string>, budget: real, quote: (nat, string) -> real)
    requires PositiveQuotes(quote) && entries != []
    ensures var last := |entries| - 1;
      var previous := Replay(entries[..last], budget, quote).p.fills;
      var fills := Replay(entries, budget, quote).p.fills;
      && |previous| <= last
      && (fills == previous ||
          (|previous| == last && |fills| == last + 1 && FillOfEntry(entries[last], last, budget, quote) == Success(fills[last]) && fills == previous + [fills[last]]))
  {
    var last := |entries| - 1;
    ReplayStopsAtFirstError(entries[..last], budget, quote);
    assert Replay(entries, budget, quote) == ReplayLast(entries, budget, quote);
    var before := Replay(entries[..last], budget, quote);
    if before.Running? {
      StepFills(before.p, last, entries[last], budget, quote);
    }
  }

  /** The loop stops exactly when some entry of the allocation has no ':'. */
  lemma MissingPercentageStops(entries: seq<string>, budget: real, quote: (nat, string) -> real)
    requires PositiveQuotes(quote)
    ensures Replay(entries, budget, quote).Stopped? <==> exists j :: 0 <= j < |entries| && ':' !in entries[j]
  {
    ReplayStopsAtFirstError(entries, budget, quote);
    ReplayFollowsEntries(entries, budget, quote);
    var out := Replay(entries, budget, quote);
    if out.Running? {
      forall j | 0 <= j < |entries|
        ensures ':' in entries[j]
      {
        assert FillOfEntry(entries[j], j, budget, quote).Success?;
      }
    }
  }

  lemma SymbolsAppend(fills: seq<Fill>, f: Fill)
    ensures Symbols(fills + [f]) == Symbols(fills) + {f.symbol}
  {
    var all := fills + [f];
    forall s | s in Symbols(fills) ensures s in Symbols(all) {
      var i :| 0 <= i < |fills| && fills[i].symbol == s;
      assert all[i].symbol == s;
    }
    assert all[|fills|].symbol == f.symbol;
  }

  /** A symbol that was never filled has neither shares nor cost. */
  lemma {:induction false} NeverFilled(fills: seq<Fill>, symbol: string)
    requires symbol !in Symbols(fills)
    ensures SharesOf(fills, symbol) == 0 && CostOf(fills, symbol) == 0.0
    decreases |fills|
  {
    if fills != [] {
      var front := fills[..|fills| - 1];
      assert fills == front + [fills[|fills| - 1]];
      SymbolsAppend(front, fills[|fills| - 1]);
      NeverFilled(front, symbol);
    }
  }

  /** The loop's running total is the sum of the costs of its fills. */
  lemma {:induction false} ReplaySpent(entries: seq<string>, budget: real, quote: (nat, string) -> real)
    requires PositiveQuotes(quote)
    ensures Replay(entries, budget, quote).p.spent == Spent(Replay(entries, budget, quote).p.fills)
    decreases |entries|
  {
    if entries != [] {
      var last := |entries| - 1;
      ReplaySpent(entries[..last], budget, quote);
      assert Replay(entries, budget, quote) == ReplayLast(entries, budget, quote);
      var before := Replay(entries[..last], budget, quote);
      if before.Running? {
        var out := Step(before.p, last, entries[last], budget, quote);
        if out.Running? {
          assert out.p.fills[..|before.p.fills|] == before.p.fills;
        }
      }
    }
  }

  /**
   * The holdings the loop keeps and the fills it made, at every point: one
   * holding per symbol filled, with the shares filled for it and, while its
   * cost basis is a number, exactly the money spent on it.
   */
  ghost predicate HoldingsMatchFills(holdings: map<string, Share>, fills: seq<Fill>) {
    && holdings.Keys == Symbols(fills)
    && forall s :: s in holdings ==>
         && holdings[s].shareNum == SharesOf(fills, s)
         && (holdings[s].boughtPrice.Finite? ==> Invested(holdings[s]) == CostOf(fills, s))
  }

  /** Recording one more fill keeps the holdings in line with the fills. */
  lemma AddSharesMatchesFills(holdings: map<string, Share>, fills: seq<Fill>, f: Fill)
    requires HoldingsMatchFills(holdings, fills)
    ensures HoldingsMatchFills(AddShares(holdings, f.symbol, f.shares, f.price), fills + [f])
  {
    var h := AddShares(holdings, f.symbol, f.shares, f.price);
    SymbolsAppend(fills, f);
    forall s | s in h
      ensures h[s].shareNum == SharesOf(fills + [f], s)
      ensures h[s].boughtPrice.Finite? ==> Invested(h[s]) == CostOf(fills + [f], s)
    {
      AddSharesMatchesSymbol(holdings, fills, f, s);
    }
  }

  /** The same, for one symbol of the new holdings. */
  lemma AddSharesMatchesSymbol(holdings: map<string, Share>, fills: seq<Fill>, f: Fill, symbol: string)
    requires HoldingsMatchFills(holdings, fills)
    requires symbol in AddShares(holdings, f.symbol, f.shares, f.price)
    ensures var h := AddShares(holdings, f.symbol, f.shares, f.price);
      && h[symbol].shareNum == SharesOf(fills + [f], symbol)
      && (h[symbol].boughtPrice.Finite? ==> Invested(h[symbol]) == CostOf(fills + [f], symbol))
  {
    var h := AddShares(holdings, f.symbol, f.shares, f.price);
    OneMoreFill(fills, f, symbol);
    if symbol != f.symbol {
      assert h[symbol] == holdings[symbol];
    } else if f.symbol !in holdings {
      NeverFilled(fills, f.symbol);
      assert h[symbol] == Share(f.shares, Finite(f.price));
    } else {
      assert h[symbol].shareNum == holdings[symbol].shareNum + f.shares;
      if h[symbol].boughtPrice.Finite? {
        assert holdings[symbol].boughtPrice.Finite?;
        assert Invested(h[symbol]) == Invested(holdings[symbol]) + Cost(f);
      }
    }
  }

  /** The per-symbol sums after one more fill. */
  lemma OneMoreFill(fills: seq<Fill>, f: Fill, symbol: string)
    ensures SharesOf(fills + [f], symbol) == SharesOf(fills, symbol) + (if f.symbol == symbol then f.shares else 0)
    ensures CostOf(fills + [f], symbol) == CostOf(fills, symbol) + (if f.symbol == symbol then Cost(f) else 0.0)
  {
    assert (fills + [f])[..|fills|] == fills;
  }

  /**
   * Cost conservation: each holding has exactly the shares filled for its
   * symbol and, while its cost basis is a number, share count times average
   * cost is exactly what was spent on it, whether the loop completed or
   * stopped.
   */
  lemma {:induction false} ReplayConservesCost(entries: seq<string>, budget: real, quote: (nat, string) -> real)
    requires PositiveQuotes(quote)
    ensures HoldingsMatchFills(Replay(entries, budget, quote).p.holdings, Replay(entries, budget, quote).p.fills)
    decreases |entries|
  {
    if entries != [] {
      var last := |entries| - 1;
      ReplayConservesCost(entries[..last], budget, quote);
      var before := Replay(entries[..last], budget, quote);
      if before.Running? {
        var fill := FillOfEntry(entries[last], last, budget, quote);
        if fill.Success? {
          AddSharesMatchesFills(before.p.holdings, before.p.fills, fill.value);
        }
      }
    }
  }

  /** Every fill bought the whole shares its allotment allows at its price. */
  ghost predicate WholeShares(fills: seq<Fill>, budget: real) {
    forall i :: 0 <= i < |fills| ==> fills[i].price > 0.0 && fills[i].shares == SharesFor(budget, fills[i].percent, fills[i].price)
  }

  /**
   * Spending bound: the fills together never spend more than the allotments
   * they were given, and fall short of them by less than one share each.
   */
  lemma {:induction false} SpentWithinAllotments(fills: seq<Fill>, budget: real)
    requires WholeShares(fills, budget)
    ensures Spent(fills) <= Allotment(budget, TotalPercent(fills))
    ensures |fills| > 0 ==> Allotment(budget, TotalPercent(fills)) - Spent(fills) < TotalPrice(fills)
    decreases |fills|
  {
    if fills != [] {
      var front, f := fills[..|fills| - 1], fills[|fills| - 1];
      SpentWithinAllotments(front, budget);
      assert Allotment(budget, TotalPercent(fills)) == Allotment(budget, TotalPercent(front)) + Allotment(budget, f.percent);
    }
  }

  /** The fills of a replay bought whole shares at positive prices. */
  lemma ReplayWholeShares(entries: seq<string>, budget: real, quote: (nat, string) -> real)
    requires PositiveQuotes(quote)
    ensures WholeShares(Replay(entries, budget, quote).p.fills, budget)
  {
    ReplayFollowsEntries(entries, budget, quote);
  }

  /**
   * What a purchase leaves behind. No other trade changes. On success the
   * new trade exists, holds what the loop bought, keeps as uninvested cash
   * exactly the leftover it reports, reports one line item per
   * comma-separated entry, and the leftover is at least the unallotted part
   * of the budget, so it is never negative when the percentages add up to at
   * most 100 and the budget is not negative.
   */
  lemma PurchaseSummary(before: Option<Accounts>, id: int, allocation: string, budget: real, quote: (nat, string) -> real)
    requires PositiveQuotes(quote)
    requires before.Some? ==> id !in before.value
    ensures var base := if before.Some? then before.value else map[];
      var (after, r) := BuyEffect(before, id, allocation, budget, quote);
      var out := Replay(Split(allocation, ','), budget, quote);
      && (forall k :: k in base ==> k in after && after[k] == base[k])
      && after.Keys <= base.Keys + {id}
      && (r.Success? <==> out.Running?)
      && (r.Failure? ==> r.error == out.error)
      && (r.Success? ==>
            && r.value.tradeId == id
            && id in after
            && after[id].stocks == out.p.holdings
            && after[id].uninvestedAmount == r.value.uninvestedAmount == budget - Spent(out.p.fills)
            && r.value.stocks == Lines(out.p.fills)
            && |r.value.stocks| == multiset(allocation)[','] + 1
            && budget - Allotment(budget, TotalPercent(out.p.fills)) <= r.value.uninvestedAmount
            && (budget >= 0.0 && TotalPercent(out.p.fills) <= 100.0 ==> r.value.uninvestedAmount >= 0.0))
  {
    var entries := Split(allocation, ',');
    SplitCount(allocation, ',');
    ReplayStopsAtFirstError(entries, budget, quote);
    ReplayWholeShares(entries, budget, quote);
    ReplaySpent(entries, budget, quote);
    var out := Replay(entries, budget, quote);
    var base: Accounts := if before.Some? then before.value else map[];
    if out.Running? {
      assert entries[..|entries|] == entries;
      SettleRunning(before, id, allocation, budget, quote, out.p);
      SpentWithinAllotments(out.p.fills, budget);
      if budget >= 0.0 && TotalPercent(out.p.fills) <= 100.0 {
        AllotmentWithinBudget(budget, TotalPercent(out.p.fills));
      }
    } else {
      SettleStoppedAll(before, id, allocation, budget, quote);
    }
  }

  /**
   * Buy fails exactly when an entry of the allocation has no ':', and then
   * with the first such entry.
   */
  lemma BuyFailsOnMissingPercentage(before: Option<Accounts>, id: int, allocation: string, budget: real, quote: (nat, string) -> real)
    requires PositiveQuotes(quote)
    ensures var entries := Split(allocation, ',');
      var r := BuyEffect(before, id, allocation, budget, quote).1;
      && (r.Success? <==> forall j :: 0 <= j < |entries| ==> ':' in entries[j])
      && (r.Failure? ==>
            exists k :: 0 <= k < |entries| && ':' !in entries[k] && r.error == MissingPercentage(entries[k]) &&
              forall j :: 0 <= j < k ==> ':' in entries[j])
  {
    var entries := Split(allocation, ',');
    ReplayStopsAtFirstError(entries, budget, quote);
    ReplayFollowsEntries(entries, budget, quote);
    MissingPercentageStops(entries, budget, quote);
    var out := Replay(entries, budget, quote);
    if out.Stopped? {
      var k := |out.p.fills|;
      forall j | 0 <= j < k
        ensures ':' in entries[j]
      {
        assert FillOfEntry(entries[j], j, budget, quote).Success?;
      }
      SettleStoppedAll(before, id, allocation, budget, quote);
    }
  }
}
