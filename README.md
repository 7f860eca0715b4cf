# Virtual stock trading ledger

A Dafny model of the account book of a small virtual stock trading
service. Clients send a budget and an allocation such as
`"GOOG:50%,YHOO:50%"`. The service "buys" whole shares at the current
quote under a new trade id, and later values that trade against fresh
quotes. The model covers:

- `StockAccounts.Buy`: trade id issue, allocation parsing, whole-share
  purchase, the weighted-average cost basis, the line items, and the
  leftover cash.
- `StockAccounts.Check`: its ordered error checks, the per-holding gain or
  loss marker, the market value, and the stored uninvested cash.
- The `Portfolio`, `Share` and `StockAccounts` data.
- The process-wide trade id counter and its seed.

Files:

- `wrappers.dfy`: `Option` and `Result`.
- `text.dfy` (module `Text`): the string functions the ledger relies on.
  These are `strings.Split`, `strings.TrimSuffix`, `strconv.ParseInt`,
  `strconv.ParseFloat`, `strconv.Itoa` and `strconv.FormatFloat(x, 'f', 2, 32)`,
  with round-trip lemmas.
- `purchase.dfy` (module `Purchase`): the data model and the per-entry
  arithmetic. It also defines `Replay`, a value-level account of Buy's loop
  over the entries, and `BuyEffect`, the accounts and the answer Buy leaves
  behind. Lemmas about the whole purchase are proved over these functions.
- `valuation.dfy` (module `Valuation`): the gain/loss marker, the
  valuation lines, and the market value. The market value is a sum over a
  set of symbols, so it does not depend on visiting order.
- `ledger.dfy` (module `Ledger`): the class `StockAccounts`. Its two fields
  are updated in place:
  - `stockPortfolio` is `None` until the first purchase makes the map;
  - `tradeId` is the process-wide counter.

  `Buy` is an imperative loop, with its loop body in `BuyEntry`. `Check`
  and its loop `ValueHoldings` are read-only. `Buy` is proved to leave
  exactly the state and answer of `BuyEffect`. `BuyThenCheck` and
  `BuyTwice` are client sequences.

Behaviour kept as the code has it, where a reader might expect otherwise:

- **Missing ':'.** An entry without `:` makes the code index past the end
  of its fields and panic. The model turns this into the failure
  `MissingPercentage(entry)`. Changes already made by earlier entries stay,
  and later entries are not processed.
- **Unreadable percentage.** A percentage that does not parse counts as 0,
  because the parse error is discarded.
- **Zero-share holdings.** A first purchase of a symbol creates a holding
  even when it bought 0 shares.
- **Repeated symbols.** A repeated symbol always goes through the
  weighted-average update, including when it adds 0 shares.
- **Zero share total.** When the share total in that update is 0, the
  float division gives NaN (0/0) or an infinity. Buy carries on. The model
  therefore gives the cost basis the type `Basis`, which has these cases:
  `Finite`, `PlusInfinity`, `MinusInfinity` and `NotANumber`. They follow
  IEEE multiplication, addition, division and comparison. A NaN basis stays
  NaN, and `Check` shows it as unchanged (`$`), because both comparisons
  are false.
- **Check's errors.** `Check` tests for a missing account before it parses
  the id, and it never changes the accounts.

## Model

| member | source | states |
|---|---|---|
| Ledger.StockAccounts.constructor | VirtualStockTradingServer.go:194-197 | the service starts with no account map and the counter seeded in [1, 99999] |
| Ledger.StockAccounts.Buy | VirtualStockTradingServer.go:67-138 | the counter goes up by one and the new id is not in use; accounts exist afterwards; the new accounts and the answer are exactly `BuyEffect` of the old accounts, and the ids-below-counter invariant is kept |
| Ledger.StockAccounts.BuyEntry | VirtualStockTradingServer.go:94-129 | one pass of the loop: fails exactly when the entry has no ':', with that error; otherwise sets up the trade's portfolio if missing, records the fill in its holdings and adds the fill's line and cost, matching `Step` |
| Ledger.StockAccounts.Check | VirtualStockTradingServer.go:141-189 | errors in the code's order (no account, unparsable id, unknown id); success exactly when the id parses and names a trade; reports the stored uninvested cash, the market value, and one line per holding with no repeats, covering every holding |
| Ledger.ValueHoldings | VirtualStockTradingServer.go:157-177 | the loop visits every holding once in some order, sums share count times quote to the market value, and emits the valuation line of each visited holding in visiting order |
| Ledger.BuyThenCheck | VirtualStockTradingServer.go:71 | a successful purchase's id, sent back as decimal text, is found by `Check`, which reports that purchase's leftover as the trade's uninvested cash; a failed purchase gives no id to check |
| Ledger.MessagesDistinct | VirtualStockTradingServer.go:143-185 | `Message` gives each of Check's three failures its own text ("No account set up yet.", "Invalid Trade ID. ", "This trade ID doesn't exists"), so the texts tell the failures apart |
| Ledger.BuyTwice | VirtualStockTradingServer.go:70-71 | two successful purchases in a row answer with strictly increasing ids, the second one being the counter |
| Purchase.PurchaseSummary | VirtualStockTradingServer.go:85-135 | no other trade changes and no other id appears; success exactly when the loop completes; on success the new trade holds what the loop bought and keeps as cash exactly the reported leftover, `budget` minus what the fills spent; one line item per comma-separated entry; the leftover is at least the unallotted budget and is non-negative when the budget is and the percentages add up to at most 100 |
| Purchase.BuyFailsOnMissingPercentage | VirtualStockTradingServer.go:94-96 | a purchase fails exactly when some entry has no ':', and then with the first such entry |
| Purchase.SharesFor | VirtualStockTradingServer.go:102 | the share count is the largest whole number whose cost stays within the allotment `budget × pct / 100` |
| Purchase.AllotmentBounds | VirtualStockTradingServer.go:98-104 | with non-negative budget and percentage, shares are non-negative and the cost lies in [0, allotment], less than one price below it |
| Purchase.AllotmentWithinBudget | VirtualStockTradingServer.go:99 | percentages of at most 100 allot at most a non-negative budget |
| Purchase.ParseEntry | VirtualStockTradingServer.go:94-98 | reading an entry fails exactly when it has no ':', with that entry as the error; the symbol holds no ':' |
| Purchase.ParseEntryWellFormed | VirtualStockTradingServer.go:94-98 | `SYMBOL:PCT[%][:anything]` yields that symbol and the value of PCT with one trailing '%' dropped; later fields are ignored |
| Purchase.AddShares | VirtualStockTradingServer.go:114-125 | a new symbol gets a holding of exactly the shares at the price, 0 shares included; other symbols are untouched; share counts add; the basis stays a number exactly when the share total is not 0, and then share count times basis grows by exactly the new cost; a non-number basis never becomes a number again |
| Purchase.AverageBetween | VirtualStockTradingServer.go:122-123 | buying more shares of a held symbol puts its new average cost between the old average and the new price |
| Purchase.ZeroOnZeroIsNaN | VirtualStockTradingServer.go:122-123 | adding 0 shares to a holding of 0 shares makes its cost basis NaN |
| Purchase.NaNStays | VirtualStockTradingServer.go:122-123 | a NaN cost basis stays NaN whatever is bought |
| Purchase.FillFor | VirtualStockTradingServer.go:100-103 | a fill buys, at the positive quote for its entry, whole shares costing at most the allotment `budget × pct / 100` and less than one share short of it, never a negative count when budget and percentage are not negative; it keeps the entry's symbol and percentage |
| Purchase.LineItemFields | VirtualStockTradingServer.go:127 | `LineItem` is `SYMBOL:SHARES:$PRICE`: for a symbol without ':' it splits on ':' into exactly the symbol, the share count in decimal, and '$' followed by the two-decimal price |
| Purchase.LineItemReadsBack | VirtualStockTradingServer.go:127 | a client reading a line item back gets the symbol and the share count exactly, and the price to within half a cent |
| Purchase.ReplayFollowsEntries | VirtualStockTradingServer.go:90-129 | the loop's fills are those of the entries, one per entry and in input order, never more than the entries |
| Purchase.ReplayExtends | VirtualStockTradingServer.go:90-130 | one more entry adds at most its own fill, at the end |
| Purchase.ReplayStopsAtFirstError | VirtualStockTradingServer.go:90-96 | a completed loop has one fill per entry; a stopped loop stopped at the first entry without ':', with that entry's error |
| Purchase.MissingPercentageStops | VirtualStockTradingServer.go:94-96 | the loop stops exactly when some entry has no ':' |
| Purchase.StoppedStays | VirtualStockTradingServer.go:90-96 | once the loop has stopped, later entries change nothing |
| Purchase.StepFills | VirtualStockTradingServer.go:94-129 | a readable entry appends exactly its fill, an unreadable one stops the loop with its error and changes nothing |
| Purchase.ReplaySpent | VirtualStockTradingServer.go:88-104 | the running total spent equals the sum of the fills' costs |
| Purchase.AddSharesMatchesFills | VirtualStockTradingServer.go:114-125 | recording a fill keeps the holdings in line with the fills |
| Purchase.ReplayConservesCost | VirtualStockTradingServer.go:104-125 | cost conservation: one holding per symbol bought, with exactly the shares filled for it and, while its basis is a number, share count times basis equal to what was spent on it |
| Purchase.SpentWithinAllotments | VirtualStockTradingServer.go:102-104 | the fills never spend more than their allotments together, and fall short by less than one price per fill |
| Purchase.ReplayWholeShares | VirtualStockTradingServer.go:100-103 | every fill of the loop bought the whole shares its allotment allows, at a positive price |
| Purchase.SettleRunning | VirtualStockTradingServer.go:133-135 | once every entry is applied, the leftover is both reported and added to the new trade's cash |
| Purchase.SettleStopped | VirtualStockTradingServer.go:94-96 | a failing entry leaves the accounts as the loop had them and answers with its error |
| Purchase.RunningStarted | VirtualStockTradingServer.go:108-113 | a loop that ran over at least one entry has set up the trade's portfolio |
| Valuation.TrendOf | VirtualStockTradingServer.go:164-171 | `+$` exactly when the cost basis is below the quote, `-$` exactly when above, `$` exactly when equal or NaN |
| Valuation.ValuationLineFields | VirtualStockTradingServer.go:164-174 | `ValuationLine` is `SYMBOL:SHARES:<marker>PRICE`: for a symbol without ':' it splits on ':' into exactly the symbol, the share count in decimal, and the trend's marker followed by the two-decimal current price |
| Valuation.WorthOfRemove | VirtualStockTradingServer.go:158-176 | any holding can be added first: the market value does not depend on the visiting order |
| Valuation.NoSharesNoWorth | VirtualStockTradingServer.go:176 | holdings with no shares are worth 0 at any quotes |
| Valuation.WorthNonNegative | VirtualStockTradingServer.go:176 | with no negative holdings and positive quotes the market value is not negative |
| Text.Split | VirtualStockTradingServer.go:85 | the pieces are never an empty list and none holds the separator |
| Text.JoinSplit | VirtualStockTradingServer.go:85 | putting the separator back between the pieces gives the string back |
| Text.SplitJoin | VirtualStockTradingServer.go:94 | splitting undoes joining pieces that hold no separator |
| Text.SplitCount | VirtualStockTradingServer.go:85 | there is one piece more than there are separators |
| Text.TrimPercent | VirtualStockTradingServer.go:97 | exactly one trailing '%' is dropped when there is one, otherwise nothing changes |
| Text.ParseInt | VirtualStockTradingServer.go:148-152 | a parsed id fits in 64 bits and the text holds a digit |
| Text.ParseIntDigits | VirtualStockTradingServer.go:148-152 | an optional '+' or '-' and one or more digits (leading zeros allowed, as in `+7` or `007`) read as the signed number they denote when it fits in 64 bits, and are rejected when it does not |
| Text.ParseIntRejects | VirtualStockTradingServer.go:148-152 | a character that is not a digit, unless it is a sign in front of more text, makes the id unreadable; a lone sign is unreadable |
| Text.ParseIntEmpty | VirtualStockTradingServer.go:148-152 | the empty text is no id |
| Text.ItoaDenotes | VirtualStockTradingServer.go:127 | `Itoa` writes a minus sign exactly for a negative number, then one or more digits denoting its magnitude, and never a ':' |
| Text.ParseIntItoa | VirtualStockTradingServer.go:148 | every 64-bit integer, rendered in decimal, parses back to itself |
| Text.ParseFloatNat | VirtualStockTradingServer.go:98 | a natural number in decimal reads as itself |
| Text.ParseFloatRejects | VirtualStockTradingServer.go:98 | a character that is no digit, decimal point or leading sign makes the percentage read as 0 |
| Text.ParseFloatDecimal | VirtualStockTradingServer.go:98 | `[-]digits.digits` reads as the number it denotes, with either side of the point allowed to be empty but not both (`.5` is 0.5, `5.` is 5) |
| Text.RoundCents | VirtualStockTradingServer.go:127 | rounding to whole cents moves the amount by at most half a cent |
| Text.FormatPriceShape | VirtualStockTradingServer.go:127 | `FormatPrice` writes exactly two digits after the point, a minus sign exactly for a negative price, and nothing but digits, the point and that sign |
| Text.ParseFloatFormatPrice | VirtualStockTradingServer.go:127 | the two-decimal price text reads back as the price rounded to the cent, within half a cent of it |

## Left out

- Floating point width: budgets, prices, percentages and amounts are
  `real`. The float32 rounding of each product, quotient and sum (lines
  86, 99, 102-104, 122-123, 133, 176) is not modelled. Conservation and the
  spending bounds hold exactly over the reals, not bit for bit over float32.
  The IEEE special values that a zero share total produces are modelled.
- `checkQuote`: the HTTP request, the JSON extraction and `log.Fatal` on
  failure are I/O. The quote source is a parameter. Buy's quote takes the
  entry index as well as the symbol, because each call may answer
  differently.
- Positive quotes: the quote source is required to give positive prices. A
  zero price makes line 102 convert an infinite float to `int`, and Go
  leaves that result implementation-defined.
- `main`, the RPC, router and middleware wiring, and `checkError`. These
  are transport plumbing. The recovery middleware chain is attached to the
  router (lines 205-214), but the listener serves the RPC server directly
  (line 215). So the panic at line 96 reaches net/http's own per-connection
  recovery, which logs it and closes the connection without a reply. The
  model keeps only the outcome: the request fails, and the changes made by
  earlier entries stay.
- The `math/rand` seed: the initial counter is a constructor parameter in
  [1, 99999].
- Integer width: the counter and the share counts are unbounded integers.
  The 64-bit wrap-around of `tradeId++` after `MaxInt64` is not modelled.
  `BuyThenCheck` requires the counter to be below `MaxInt64`, so that the
  new id still parses.
- `strconv.ParseFloat` is modelled as an optional `+` or `-`, then digits
  with at most one decimal point and at least one digit, so `.5` and `5.`
  are numbers. Exponents,
  hexadecimal, underscores, `inf`/`nan` and range errors are not modelled,
  and any other text reads as 0.
- `strconv.FormatFloat(x, 'f', 2, 32)` is modelled as exact rounding to the
  cent, ties to even, with a minus sign for negative prices. Its float32
  shortest-representation details are not modelled.
- Concurrency: the service's handlers race on the global counter and the
  maps. The model is sequential.
- Pointers: `Portfolio` and `Share` are pointers updated through the map in
  Go. Each is allocated fresh and never shared, so the model holds them as
  values in map fields that the methods reassign.
- Check's map iteration order is random in Go. It is a ghost output
  (`order`), which may be any order of the trade's symbols.
- `Check` returns its failure as a `CheckError`; the text it is reported
  with is `Ledger.Message`, which no other contract uses. Buy's panic
  message is not modelled.
