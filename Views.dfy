/**
 * What the portfolio page and the history page derive from the ledger:
 * the positive holdings, their valuation at current quotes, and the list of
 * past trades.
 */
module Views {
  import opened Wrappers
  import opened Ledger

  /** One row of `SELECT symbol, SUM(shares) ... GROUP BY symbol HAVING ...`. */
  datatype Position = Position(symbol: string, shares: int)

  /** One row of the portfolio table: a holding valued at its current quote. */
  datatype Valuation = Valuation(symbol: string, shares: int, price: Price, total: real)

  /** One row of the history table; `kind` is the label "Buy" or "Sell". */
  datatype Entry = Entry(symbol: string, shares: int, price: Price, total: real, kind: string)

  predicate DistinctSymbols(ps: seq<Position>) {
    forall i, j :: 0 <= i < j < |ps| ==> ps[i].symbol != ps[j].symbol
  }

  // ---------------------------------------------------------------- holdings

  function HeldAmong(l: seq<Record>, syms: seq<string>): seq<Position> {
    if syms == [] then []
    else
      (if Net(l, syms[0]) > 0 then [Position(syms[0], Net(l, syms[0]))] else [])
      + HeldAmong(l, syms[1..])
  }

  /** The grouped, summed holdings with only the positive sums kept. */
  function Holdings(l: seq<Record>): seq<Position> {
    HeldAmong(l, Symbols(l))
  }

  lemma {:induction false} HeldAmongExact(l: seq<Record>, syms: seq<string>)
    requires forall i, j :: 0 <= i < j < |syms| ==> syms[i] != syms[j]
    ensures forall p :: p in HeldAmong(l, syms) ==> p.symbol in syms && p.shares == Net(l, p.symbol) > 0
    ensures forall s :: s in syms && Net(l, s) > 0 ==> Position(s, Net(l, s)) in HeldAmong(l, syms)
    ensures DistinctSymbols(HeldAmong(l, syms))
  {
    if syms != [] {
      var tail := syms[1..];
      HeldAmongExact(l, tail);
      var head := if Net(l, syms[0]) > 0 then [Position(syms[0], Net(l, syms[0]))] else [];
      var h := HeldAmong(l, syms);
      assert h == head + HeldAmong(l, tail);
      assert forall p :: p in HeldAmong(l, tail) ==> p.symbol != syms[0];
      forall s | s in syms && Net(l, s) > 0
        ensures Position(s, Net(l, s)) in h
      {
        if s != syms[0] {
          assert s in tail;
        }
      }
    }
  }

  /**
   * The holdings list every symbol whose net share sum is positive, once,
   * with that sum, and nothing else.
   */
  lemma HoldingsExact(l: seq<Record>)
    ensures forall p :: p in Holdings(l) ==> p.shares == Net(l, p.symbol) > 0
    ensures forall s :: Net(l, s) > 0 ==> Position(s, Net(l, s)) in Holdings(l)
    ensures DistinctSymbols(Holdings(l))
  {
    HeldAmongExact(l, Symbols(l));
    forall s | Net(l, s) > 0
      ensures s in Symbols(l)
    {
      if !Traded(l, s) {
        UntradedNetZero(l, s);
      }
    }
  }

  // ----------------------------------------------------------- valuation

  /** The portfolio rows: each holding the oracle resolves, valued at its quote. */
  function Valued(ps: seq<Position>, quote: string -> Option<Price>): seq<Valuation> {
    if ps == [] then []
    else
      var last := ps[|ps| - 1];
      Valued(ps[..|ps| - 1], quote) + RowFor(last, quote)
  }

  /** The portfolio row of one holding: none when the oracle cannot price it. */
  function RowFor(p: Position, quote: string -> Option<Price>): seq<Valuation> {
    match quote(p.symbol)
    case None => []
    case Some(price) => [Row(p, price)]
  }

  /** A holding valued at a price: the row's total is price times shares. */
  function Row(p: Position, price: Price): Valuation {
    Valuation(p.symbol, p.shares, price, price * p.shares as real)
  }

  /** Sum of price times shares over the holdings the oracle resolves. */
  function Worth(ps: seq<Position>, quote: string -> Option<Price>): real {
    if ps == [] then 0.0
    else
      var last := ps[|ps| - 1];
      Worth(ps[..|ps| - 1], quote)
      + match quote(last.symbol)
        case None => 0.0
        case Some(price) => Row(last, price).total
  }

  /** The sum of the `total` column of portfolio rows. */
  function TotalOf(vs: seq<Valuation>): real {
    if vs == [] then 0.0 else TotalOf(vs[..|vs| - 1]) + vs[|vs| - 1].total
  }

  lemma {:induction false} TotalOfAppend(vs: seq<Valuation>, ws: seq<Valuation>)
    ensures TotalOf(vs + ws) == TotalOf(vs) + TotalOf(ws)
  {
    if ws != [] {
      var init := ws[..|ws| - 1];
      assert (vs + ws)[..|vs + ws| - 1] == vs + init;
      TotalOfAppend(vs, init);
    } else {
      assert vs + ws == vs;
    }
  }

  /** The portfolio rows' totals add up to the worth of the holdings. */
  lemma {:induction false} WorthIsRowTotal(ps: seq<Position>, quote: string -> Option<Price>)
    ensures Worth(ps, quote) == TotalOf(Valued(ps, quote))
  {
    if ps != [] {
      var init := ps[..|ps| - 1];
      var last := ps[|ps| - 1];
      WorthIsRowTotal(init, quote);
      var tail := RowFor(last, quote);
      TotalOfAppend(Valued(init, quote), tail);
      if tail != [] {
        assert tail[..0] == [];
      }
    }
  }

  /** Row v shows holding p valued at the oracle's quote for its symbol. */
  predicate Values(v: Valuation, p: Position, quote: string -> Option<Price>) {
    && quote(p.symbol) == Some(v.price)
    && v == Row(p, v.price)
  }

  lemma RowForExact(p: Position, quote: string -> Option<Price>)
    ensures forall v :: v in RowFor(p, quote) <==> Values(v, p, quote)
  {
  }

  /**
   * A portfolio row exists exactly for each holding the oracle resolves, and
   * carries that holding's shares, its quote, and their product.
   */
  lemma {:induction false} ValuedExact(ps: seq<Position>, quote: string -> Option<Price>)
    ensures forall v :: v in Valued(ps, quote) <==> exists p :: p in ps && Values(v, p, quote)
  {
    if ps != [] {
      var init := ps[..|ps| - 1];
      var last := ps[|ps| - 1];
      assert ps == init + [last];
      ValuedExact(init, quote);
      var tail := RowFor(last, quote);
      assert Valued(ps, quote) == Valued(init, quote) + tail;
      RowForExact(last, quote);
      forall v | exists p :: p in ps && Values(v, p, quote)
        ensures v in Valued(ps, quote)
      {
        var p :| p in ps && Values(v, p, quote);
        if p != last {
          assert p in init;
        }
      }
      forall v | v in Valued(ps, quote)
        ensures exists p :: p in ps && Values(v, p, quote)
      {
        if v in tail {
          assert last in ps;
        } else {
          var p :| p in init && Values(v, p, quote);
          assert p in ps;
        }
      }
    }
  }

  predicate DistinctRows(vs: seq<Valuation>) {
    forall i, j :: 0 <= i < j < |vs| ==> vs[i].symbol != vs[j].symbol
  }

  /** Holdings with distinct symbols give portfolio rows with distinct symbols. */
  lemma {:induction false} ValuedDistinct(ps: seq<Position>, quote: string -> Option<Price>)
    requires DistinctSymbols(ps)
    ensures DistinctRows(Valued(ps, quote))
  {
    if ps != [] {
      var init := ps[..|ps| - 1];
      var last := ps[|ps| - 1];
      var vs := Valued(init, quote);
      var tail := RowFor(last, quote);
      assert Valued(ps, quote) == vs + tail;
      ValuedDistinct(init, quote);
      ValuedExact(init, quote);
      RowForExact(last, quote);
      forall i, j | 0 <= i < |vs| && 0 <= j < |tail|
        ensures vs[i].symbol != tail[j].symbol
      {
        assert vs[i] in vs;
        var p :| p in init && Values(vs[i], p, quote);
        var k :| 0 <= k < |init| && init[k] == p;
        assert ps[k] == p;
        assert tail[j] in tail;
      }
      assert |tail| <= 1;
    }
  }

  /**
   * Read together: the portfolio lists each held symbol that the oracle
   * resolves, with its net shares and quote; unresolved holdings are absent.
   */
  lemma PortfolioExact(l: seq<Record>, quote: string -> Option<Price>)
    ensures forall v :: v in Valued(Holdings(l), quote) ==>
      v.shares == Net(l, v.symbol) > 0 && quote(v.symbol) == Some(v.price) && v.total == v.price * v.shares as real
    ensures forall s :: Net(l, s) > 0 && quote(s).Some? ==>
      exists v :: v in Valued(Holdings(l), quote) && Values(v, Position(s, Net(l, s)), quote)
    ensures DistinctRows(Valued(Holdings(l), quote))
  {
    PortfolioRowsHeld(l, quote);
    PortfolioRowsComplete(l, quote);
    HoldingsExact(l);
    ValuedDistinct(Holdings(l), quote);
  }

  lemma PortfolioRowsHeld(l: seq<Record>, quote: string -> Option<Price>)
    ensures forall v :: v in Valued(Holdings(l), quote) ==>
      v.shares == Net(l, v.symbol) > 0 && quote(v.symbol) == Some(v.price) && v.total == v.price * v.shares as real
  {
    var h := Holdings(l);
    HoldingsExact(l);
    ValuedExact(h, quote);
    forall v | v in Valued(h, quote)
      ensures v.shares == Net(l, v.symbol) > 0 && quote(v.symbol) == Some(v.price) && v.total == v.price * v.shares as real
    {
      var p :| p in h && Values(v, p, quote);
    }
  }

  lemma PortfolioRowsComplete(l: seq<Record>, quote: string -> Option<Price>)
    ensures forall s :: Net(l, s) > 0 && quote(s).Some? ==>
      exists v :: v in Valued(Holdings(l), quote) && Values(v, Position(s, Net(l, s)), quote)
  {
    var h := Holdings(l);
    HoldingsExact(l);
    ValuedExact(h, quote);
    forall s | Net(l, s) > 0 && quote(s).Some?
      ensures exists v :: v in Valued(h, quote) && Values(v, Position(s, Net(l, s)), quote)
    {
      var p := Position(s, Net(l, s));
      assert p in h;
      var price := quote(s).value;
      assert Values(Row(p, price), p, quote);
    }
  }

  // ------------------------------------------------------------- history

  function Abs(n: int): nat {
    if n < 0 then -n else n
  }

  /** How the history page shows one record. */
  function Describe(r: Record): Entry {
    Entry(r.symbol, r.shares, r.price, r.price * Abs(r.shares) as real,
          if r.shares > 0 then "Buy" else "Sell")
  }

  /** The ledger's records shown most recent first. */
  function HistoryOf(l: seq<Record>): seq<Entry> {
    if l == [] then [] else [Describe(l[|l| - 1])] + HistoryOf(l[..|l| - 1])
  }

  /** Entry k of the history is the k-th most recent record, described. */
  lemma {:induction false} HistoryOfAt(l: seq<Record>, k: int)
    requires 0 <= k < |l|
    ensures |HistoryOf(l)| == |l|
    ensures HistoryOf(l)[k] == Describe(l[|l| - 1 - k])
  {
    var init := l[..|l| - 1];
    if k > 0 {
      HistoryOfAt(init, k - 1);
    } else if init != [] {
      HistoryOfAt(init, 0);
    }
  }

  // ------------------------------------------------ the query as written

  /** The shares of the most recent record of a symbol (0 when there is none). */
  function LastShares(l: seq<Record>, symbol: string): int {
    if l == [] then 0
    else if l[|l| - 1].symbol == symbol then l[|l| - 1].shares
    else LastShares(l[..|l| - 1], symbol)
  }

  function BareHavingAmong(l: seq<Record>, syms: seq<string>): seq<Position> {
    if syms == [] then []
    else
      (if LastShares(l, syms[0]) > 0 then [Position(syms[0], Net(l, syms[0]))] else [])
      + BareHavingAmong(l, syms[1..])
  }

  /**
   * The holdings query as the source writes it: in `HAVING shares > 0` the
   * name `shares` denotes the table column, not the `SUM` alias, so the
   * filter reads the group's last row rather than the sum.
   */
  function HoldingsAsWritten(l: seq<Record>): seq<Position> {
    BareHavingAmong(l, Symbols(l))
  }

  /** Buy 10, then sell 5: the user still holds 5 shares the query as written omits. */
  lemma BareHavingHidesPosition()
    ensures var l := [Record("AAPL", 10, 150.0), Record("AAPL", -5, 160.0)];
      && Net(l, "AAPL") == 5
      && Holdings(l) == [Position("AAPL", 5)]
      && HoldingsAsWritten(l) == []
  {
    var l := [Record("AAPL", 10, 150.0), Record("AAPL", -5, 160.0)];
    assert l[..1] == [Record("AAPL", 10, 150.0)];
    assert Symbols(l[..1]) == ["AAPL"];
    assert Symbols(l) == ["AAPL"];
    assert Net(l, "AAPL") == 5;
  }
}
