# Finance: the ledger and trade engine

This project models the core of a small stock-trading web application.
Each user has a cash balance, which starts at 10000.00, and an append-only
ledger of trades. A trade is a row `(symbol, shares, price)`: positive
shares for a purchase, negative shares for a sale. The model covers:

- the buy and sell forms, which validate a request and then append one
  record and move cash;
- the portfolio page, which groups the ledger by symbol, keeps the
  positive sums and values them at current quotes (the source's query
  filters on a single row instead of the sum; the model uses the sum and
  records the query as written under Findings);
- the history page, which lists every trade, most recent first.

Modules:

- `Wrappers`: the `Option` type used for the price oracle's answer.
- `Shares`: the share-count check `shares.isdigit() and int(shares) > 0`,
  with its inverse `Decimal` and a round-trip lemma.
- `Ledger`: the record type, the starting balance, the per-symbol net sum
  `Net`, the cash total `Spent`, and the list of traded `Symbols`.
- `Views`: the holdings (`Holdings`), their valuation (`Valued`, `Worth`),
  the history (`HistoryOf`), and the holdings query as written
  (`HoldingsAsWritten`, see Findings).
- `Trading`: the order in which requests are checked (`BuyOutcome`,
  `SellOutcome`) and the `Account` class. The class has fields `ledger` and
  `cash`. Its methods `Buy` and `Sell` change both, and `Index` and
  `History` only read them. The class invariant `Valid()` states:
  - cash equals 10000.00 minus the sum of shares times price over the ledger;
  - cash is never negative;
  - no symbol's net share sum is negative;
  - no record has zero shares.

  The constructor establishes `Valid()` and every trade preserves it, so
  it holds after any sequence of buys and sells.

The price oracle (`lookup`) is external. Buy and sell receive its answer as
an `Option<Price>`. The portfolio page receives it as a total function
from symbol to `Option<Price>`. Prices and cash are exact `real` numbers,
and a `Price` is never negative. Symbols are compared exactly as typed.

## Model

| member | source | states |
|---|---|---|
| `Shares.ParseShares` | finance/app.py:78 | the share text is accepted exactly when it is non-empty, all decimal digits, and has a digit other than '0'; an accepted count is positive |
| `Shares.ZeroIffAllZeros` | finance/app.py:78 | a digit string denotes zero exactly when all its digits are '0', which is why "0" and "000" are rejected |
| `Shares.ParseDecimal` | finance/app.py:78 | the decimal text of any positive count is accepted and parses back to that count |
| `Shares.LeadingZeroIgnored` | finance/app.py:78 | a leading zero never changes the verdict or the count ("007" is 7, "00" is rejected) |
| `Ledger.NetAppend` | finance/app.py:266-268 | appending a record changes the net sum of its own symbol by its shares and leaves every other symbol's sum unchanged |
| `Ledger.SpentAppend` | finance/app.py:94-97 | appending a record adds exactly its shares times price to the ledger's traded total |
| `Ledger.UntradedNetZero` | finance/app.py:266-268 | a symbol with no rows has net sum zero, so "no row" is the zero-holding case of "Not enough shares." |
| `Ledger.Symbols` | finance/app.py:41-44 | the groups of `GROUP BY symbol`: every traded symbol exactly once, and nothing else |
| `Views.HoldingsExact` | finance/app.py:41-44 | the holdings list every symbol whose net sum is positive, with that sum, once each, and no other symbol (the sell form's list at line 289 is the same query) |
| `Views.ValuedExact` | finance/app.py:49-62 | a portfolio row exists exactly for each holding the oracle prices, with its shares, its quote, and quote times shares |
| `Views.WorthIsRowTotal` | finance/app.py:48-56 | the sum of quote times shares over the priced holdings equals the sum of the rows' totals |
| `Views.ValuedDistinct` | finance/app.py:49-62 | holdings with distinct symbols give portfolio rows with distinct symbols, so no holding is shown twice |
| `Views.PortfolioExact` | finance/app.py:41-62 | every portfolio row is a held symbol with its net shares and current quote; every held symbol the oracle prices has exactly one row; unpriced holdings have none |
| `Views.HistoryOfAt` | finance/app.py:110-125 | the history has one entry per record, and entry k describes the k-th most recent record |
| `Views.BareHavingHidesPosition` | finance/app.py:41-44 | the holdings query as written omits a symbol bought 10 and sold 5, which is still held 5, while the corrected holdings list it |
| `Trading.BuyOutcome` | finance/app.py:74-92 | an empty symbol gives "Must provide stock symbol."; otherwise a bad share string gives "Must provide a positive number of shares."; a purchase is accepted exactly when the symbol is non-empty, the count parses, the oracle quotes, and quote times count is at most cash; the accepted record is `(symbol, +n, quote)`; a missing quote is reported whatever the cash; "Not enough funds." exactly when all earlier checks pass and the cost exceeds cash |
| `Trading.SellOutcome` | finance/app.py:257-276 | an empty symbol gives "Must provide stock symbol."; otherwise a bad share string gives "Must provide a positive number of shares."; a sale is accepted exactly when the symbol is non-empty, the count parses, the net holding is at least the count, and the oracle quotes; the accepted record is `(symbol, -n, quote)`; "Not enough shares." depends only on the input and the holding, never on the quote; "Invalid stock symbol." exactly when the input is valid, the holding suffices and the oracle has no quote; a sale is never refused for funds |
| `Trading.Account.constructor` | finance/init_db.py:10-16 | a new user has an empty ledger and 10000.00 in cash, and satisfies the account invariant |
| `Trading.Account.Buy` | finance/app.py:68-101 | the verdict is `BuyOutcome` on the old cash; an accepted purchase appends exactly its record and lowers cash by price times count; a rejection changes nothing; the account invariant is kept |
| `Trading.Account.Sell` | finance/app.py:251-286 | the verdict is `SellOutcome` on the old ledger; an accepted sale appends exactly its record and raises cash by price times count; a rejection changes nothing; the account invariant is kept |
| `Trading.Account.Append` | finance/app.py:94-97 | inserting a record and updating cash by its amount keeps cash equal to 10000.00 minus the traded total, keeps cash and every net sum non-negative, and changes nothing else |
| `Trading.Account.Index` | finance/app.py:35-64 | the loop's rows are the valued holdings (the symbols with a positive net sum, as the query intends, not as it is written), and the total is cash plus the worth of the priced holdings, which equals cash plus the rows' totals |
| `Trading.Account.History` | finance/app.py:107-128 | one row per record, most recent first, each with the record's symbol, shares and price, total price times absolute shares, and label "Buy" exactly when shares are positive |
| `Trading.TradeScenario` | finance/app.py:251-286 | buying 10 AAPL at 150.00 is accepted; selling 15 is refused for lack of shares; selling 10 at 160.00 is accepted; the account ends with 10100.00 and no holdings |

## Left out

- Web plumbing is not modelled: routing, `login_required`, the session, `flash`, templates, redirects and the cache headers (finance/app.py:24-30).
- Login, logout and registration (finance/app.py:132-245) are not modelled. Password hashing is a library, username uniqueness is a database constraint, and the user id comes from the session. The model is one account; the `user_id` filter of every query is implicit.
- The quote page (finance/app.py:185-198) is not modelled; it only forwards to `lookup`.
- `lookup`, `usd` and `apology` live in helpers.py, which is not part of this model. The oracle is an input. Currency formatting is not modelled; rows hold raw numbers.
- Floating point is not modelled. Python floats and SQLite `NUMERIC` round; the model uses exact reals, and cash conservation holds exactly only there. The model does not enforce that quotes are strictly positive; it assumes quotes are never negative (the `Price` type).
- Share strings are limited to ASCII. Python's `str.isdigit` also accepts other Unicode digits, and for some of them (superscripts) `int` then raises. The model accepts only '0' to '9'.
- A missing form field, which makes the source fail on `shares.isdigit()`, is not modelled. The inputs are strings.
- SQLite's 64-bit `INTEGER` limit is not modelled; share counts are unbounded.
- Atomicity and concurrency are not modelled. The source inserts the record and updates cash in two separate statements, with no transaction or lock. The model applies each trade as one step. Invariants are stated over sequential runs only.
- Timestamps are not modelled. History order is ledger append order. The source orders by a one-second `CURRENT_TIMESTAMP`, so trades within the same second may come out in any order there.
- The order of holdings rows is not modelled. `GROUP BY` output order is unspecified; the model lists symbols in order of their first trade.
- Trading.Account.Index: it lists the holdings whose net share sum is positive, the intended `HAVING SUM(shares) > 0`, not the source's `HAVING shares > 0` as written, which tests one row of each group (see Findings; the as-written query is `Views.HoldingsAsWritten`). The same applies to `Views.Holdings`, which the sell form's list at finance/app.py:289 also stands for.
- Trading.Account.Index: it states the rows and the total through `Valued` and `Worth`. What those mean (held symbols only, net shares, current quote) is stated by `Views.PortfolioExact`, not by the method's own contract.
- Sell checks the holding before asking the oracle (finance/app.py:265-276). So a symbol the user does not hold is reported as "Not enough shares.", even if the oracle does not know it. The model follows the code.

## Findings

| source | as written | input that shows it | evidently intended | confidence | as-written member | corrected member |
|---|---|---|---|---|---|---|
| finance/app.py:41-44 | `HAVING shares > 0` uses the name `shares`. SQLite resolves that name to the table column before the `SUM(...) AS shares` alias. A bare column in a grouped query takes one row's value, in practice the group's last row. So the filter tests the most recent trade, not the sum. The same query is used at line 289. | Buy 10 AAPL, then sell 5 AAPL. The last row has -5, so AAPL is missing from the portfolio page and from the sell form, although 5 shares are held. | Keep the groups whose sum is positive (`HAVING SUM(shares) > 0`). | Medium. This depends on SQLite's name resolution and on which row a bare column takes. Not executed. | `Views.BareHavingHidesPosition` | `Views.HoldingsExact` |
