/**
 * The trade engine: one user's account, whose buy and sell requests are
 * validated against the ledger, the cash balance and the oracle's quote and,
 * when accepted, append one ledger record and move cash by its amount.
 */
module Trading {
  import opened Wrappers
  import opened Shares
  import opened Ledger
  import opened Views

  /** Why a request was turned away (the message the form shows). */
  datatype Reason =
    | MissingSymbol       // "Must provide stock symbol."
    | InvalidShares       // "Must provide a positive number of shares."
    | UnknownSymbol       // "Invalid stock symbol."
    | InsufficientFunds   // "Not enough funds."
    | InsufficientShares  // "Not enough shares."

  datatype Outcome = Accepted(record: Record) | Rejected(reason: Reason)

  /** The checks of a purchase, in the order the buy form performs them. */
  function BuyOutcome(cash: real, symbol: string, shares: string, quote: Option<Price>): (r: Outcome)
    ensures r.Accepted? <==>
      && symbol != ""
      && ParseShares(shares).Some?
      && quote.Some?
      && quote.value * ParseShares(shares).value as real <= cash
    ensures r.Accepted? ==>
      r.record == Record(symbol, ParseShares(shares).value, quote.value) && 0 < r.record.shares
    ensures symbol == "" ==> r == Rejected(MissingSymbol)
    ensures symbol != "" && ParseShares(shares).None? ==> r == Rejected(InvalidShares)
    ensures r == Rejected(UnknownSymbol) <==> symbol != "" && ParseShares(shares).Some? && quote.None?
    ensures r == Rejected(InsufficientFunds) <==>
      && symbol != ""
      && ParseShares(shares).Some?
      && quote.Some?
      && cash < quote.value * ParseShares(shares).value as real
  {
    if symbol == "" then Rejected(MissingSymbol)
    else match ParseShares(shares)
      case None => Rejected(InvalidShares)
      case Some(n) =>
        match quote
        case None => Rejected(UnknownSymbol)
        case Some(price) =>
          if price * n as real > cash then Rejected(InsufficientFunds)
          else Accepted(Record(symbol, n, price))
  }

  /**
   * The checks of a sale, in the order the sell form performs them: the
   * holding is checked before the oracle is consulted.
   */
  function SellOutcome(l: seq<Record>, symbol: string, shares: string, quote: Option<Price>): (r: Outcome)
    ensures r.Accepted? <==>
      && symbol != ""
      && ParseShares(shares).Some?
      && ParseShares(shares).value <= Net(l, symbol)
      && quote.Some?
    ensures r.Accepted? ==>
      r.record == Record(symbol, -(ParseShares(shares).value as int), quote.value) && r.record.shares < 0
    ensures r == Rejected(InsufficientShares) <==>
      symbol != "" && ParseShares(shares).Some? && Net(l, symbol) < ParseShares(shares).value
    ensures symbol == "" ==> r == Rejected(MissingSymbol)
    ensures symbol != "" && ParseShares(shares).None? ==> r == Rejected(InvalidShares)
    ensures r == Rejected(UnknownSymbol) <==>
      && symbol != ""
      && ParseShares(shares).Some?
      && ParseShares(shares).value <= Net(l, symbol)
      && quote.None?
    ensures r != Rejected(InsufficientFunds)
  {
    if symbol == "" then Rejected(MissingSymbol)
    else match ParseShares(shares)
      case None => Rejected(InvalidShares)
      case Some(n) =>
        if !Traded(l, symbol) then
          UntradedNetZero(l, symbol);
          Rejected(InsufficientShares)
        else if Net(l, symbol) < n then
          Rejected(InsufficientShares)
        else
          match quote
          case None => Rejected(UnknownSymbol)
          case Some(price) => Accepted(Record(symbol, -(n as int), price))
  }

  /** One registered user's ledger and cash balance. */
  class Account {
    var ledger: seq<Record>
    var cash: real

    /**
     * The account invariant: cash is the starting balance less the net
     * amount traded, it is never negative, no symbol is held short, and
     * every record moves at least one share.
     */
    ghost predicate Valid()
      reads this
    {
      && cash == StartingCash - Spent(ledger)
      && 0.0 <= cash
      && (forall s :: Net(ledger, s) >= 0)
      && (forall r :: r in ledger ==> r.shares != 0)
    }

    /** A newly registered user: no trades, the default cash. */
    constructor ()
      ensures Valid()
      ensures ledger == [] && cash == StartingCash
    {
      ledger := [];
      cash := StartingCash;
    }

    method Buy(symbol: string, shares: string, quote: Option<Price>) returns (outcome: Outcome)
      requires Valid()
      modifies this
      ensures Valid()
      ensures outcome == BuyOutcome(old(cash), symbol, shares, quote)
      ensures outcome.Accepted? ==>
        ledger == old(ledger) + [outcome.record] && cash == old(cash) - Amount(outcome.record)
      ensures outcome.Rejected? ==> ledger == old(ledger) && cash == old(cash)
    {
      if symbol == "" {
        return Rejected(MissingSymbol);
      }
      var parsed := ParseShares(shares);
      if parsed.None? {
        return Rejected(InvalidShares);
      }
      var n := parsed.value;
      if quote.None? {
        return Rejected(UnknownSymbol);
      }
      var cost := quote.value * n as real;
      if cost > cash {
        return Rejected(InsufficientFunds);
      }
      var record := Record(symbol, n, quote.value);
      Append(record);
      outcome := Accepted(record);
    }

    method Sell(symbol: string, shares: string, quote: Option<Price>) returns (outcome: Outcome)
      requires Valid()
      modifies this
      ensures Valid()
      ensures outcome == SellOutcome(old(ledger), symbol, shares, quote)
      ensures outcome.Accepted? ==>
        ledger == old(ledger) + [outcome.record] && cash == old(cash) - Amount(outcome.record)
      ensures outcome.Rejected? ==> ledger == old(ledger) && cash == old(cash)
    {
      if symbol == "" {
        return Rejected(MissingSymbol);
      }
      var parsed := ParseShares(shares);
      if parsed.None? {
        return Rejected(InvalidShares);
      }
      var n := parsed.value;
      if !Traded(ledger, symbol) || Net(ledger, symbol) < n {
        return Rejected(InsufficientShares);
      }
      if quote.None? {
        return Rejected(UnknownSymbol);
      }
      var record := Record(symbol, -(n as int), quote.value);
      Append(record);
      outcome := Accepted(record);
    }

    /**
     * Insert the record and move cash by its amount, as one step. The
     * caller has checked that the record keeps cash and holdings non-negative.
     */
    method Append(record: Record)
      requires Valid()
      requires record.shares != 0
      requires Amount(record) <= cash
      requires Net(ledger, record.symbol) + record.shares >= 0
      modifies this
      ensures Valid()
      ensures ledger == old(ledger) + [record]
      ensures cash == old(cash) - Amount(record)
    {
      var before := ledger;
      ledger := ledger + [record];
      cash := cash - Amount(record);
      SpentAppend(before, record);
      forall s
        ensures Net(ledger, s) >= 0
      {
        NetAppend(before, record, s);
      }
    }

    /**
     * The portfolio page: one row per held symbol the oracle prices, and the
     * grand total of cash plus those rows.
     */
    method Index(quote: string -> Option<Price>) returns (portfolio: seq<Valuation>, total: real)
      ensures portfolio == Valued(Holdings(ledger), quote)
      ensures total == cash + Worth(Holdings(ledger), quote)
      ensures total == cash + TotalOf(portfolio)
    {
      var stocks := Holdings(ledger);
      portfolio := [];
      total := cash;
      var i := 0;
      while i < |stocks|
        invariant 0 <= i <= |stocks|
        invariant portfolio == Valued(stocks[..i], quote)
        invariant total == cash + Worth(stocks[..i], quote)
      {
        var stock := stocks[i];
        assert stocks[..i + 1][..i] == stocks[..i];
        var data := quote(stock.symbol);
        if data.Some? {
          var row := Row(stock, data.value);
          total := total + row.total;
          portfolio := portfolio + [row];
        }
        i := i + 1;
      }
      assert stocks[..i] == stocks;
      WorthIsRowTotal(stocks, quote);
    }

    /** The history page: every record, most recent first, labelled and totalled. */
    method History() returns (rows: seq<Entry>)
      ensures rows == HistoryOf(ledger)
      ensures |rows| == |ledger|
      ensures forall k :: 0 <= k < |rows| ==>
        var r := ledger[|ledger| - 1 - k];
        && rows[k].symbol == r.symbol
        && rows[k].shares == r.shares
        && rows[k].price == r.price
        && rows[k].total == r.price * Abs(r.shares) as real
        && (rows[k].kind == "Buy" <==> r.shares > 0)
    {
      rows := [];
      var i := 0;
      while i < |ledger|
        invariant 0 <= i <= |ledger|
        invariant |rows| == i
        invariant forall k :: 0 <= k < i ==> rows[k] == Describe(ledger[|ledger| - 1 - k])
      {
        rows := rows + [Describe(ledger[|ledger| - 1 - i])];
        i := i + 1;
      }
      forall k | 0 <= k < |ledger|
        ensures |HistoryOf(ledger)| == |ledger| && rows[k] == HistoryOf(ledger)[k]
      {
        HistoryOfAt(ledger, k);
      }
      if ledger == [] {
        assert rows == HistoryOf(ledger);
      } else {
        HistoryOfAt(ledger, 0);
      }
    }
  }

  /**
   * A new user buys 10 AAPL at 150.00, tries to sell 15, then sells 10 at
   * 160.00: the second request is refused and the account ends with
   * 10100.00 in cash and no holdings.
   */
  method TradeScenario() returns (first: Outcome, second: Outcome, third: Outcome, cash: real, held: seq<Position>)
    ensures first == Accepted(Record("AAPL", 10, 150.0))
    ensures second == Rejected(InsufficientShares)
    ensures third == Accepted(Record("AAPL", -10, 160.0))
    ensures cash == 10100.0 && held == []
  {
    assert ParseShares("10") == Some(10) by {
      ParseDecimal(10);
      assert Decimal(10) == "10";
    }
    assert ParseShares("15") == Some(15) by {
      ParseDecimal(15);
      assert Decimal(15) == "15";
    }
    var account := new Account();
    first := account.Buy("AAPL", "10", Some(150.0));
    var bought := Record("AAPL", 10, 150.0);
    assert account.ledger == [bought] && account.cash == 8500.0;
    assert Net([bought], "AAPL") == 10;
    second := account.Sell("AAPL", "15", Some(160.0));
    third := account.Sell("AAPL", "10", Some(160.0));
    cash := account.cash;
    var l := account.ledger;
    assert l == [Record("AAPL", 10, 150.0), Record("AAPL", -10, 160.0)];
    NetAppend([bought], Record("AAPL", -10, 160.0), "AAPL");
    assert Net(l, "AAPL") == 0;
    assert l[..1] == [bought] && [bought][..0] == [];
    assert Symbols([bought]) == ["AAPL"];
    assert Symbols(l) == ["AAPL"];
    assert ["AAPL"][1..] == [];
    assert HeldAmong(l, ["AAPL"]) == [] + HeldAmong(l, []);
    held := Holdings(l);
  }
}
