/**
 * The `transactions` table of one user, as an append-only sequence of
 * records, and the aggregates the application reads from it.
 */
module Ledger {

  /** A price per share as quoted by the oracle; it is never negative. */
  type Price = r: real | 0.0 <= r

  /** One row of `transactions`: positive shares for a purchase, negative for a sale. */
  datatype Record = Record(symbol: string, shares: int, price: Price)

  /** The `cash` column's default for a new user. */
  const StartingCash: real := 10000.0

  /** The cash a record took out of the account (negative for a sale). */
  function Amount(r: Record): real {
    r.price * r.shares as real
  }

  /** `SUM(shares)` over the records of one symbol; symbols compare exactly as typed. */
  function Net(l: seq<Record>, symbol: string): int {
    if l == [] then 0
    else (if l[0].symbol == symbol then l[0].shares else 0) + Net(l[1..], symbol)
  }

  /** The total of shares times price over the whole ledger. */
  function Spent(l: seq<Record>): real {
    if l == [] then 0.0 else Amount(l[0]) + Spent(l[1..])
  }

  /** Whether the per-symbol `GROUP BY` query returns a row at all. */
  predicate Traded(l: seq<Record>, symbol: string) {
    exists r :: r in l && r.symbol == symbol
  }

  lemma {:induction false} NetAppend(l: seq<Record>, r: Record, symbol: string)
    ensures Net(l + [r], symbol) == Net(l, symbol) + (if r.symbol == symbol then r.shares else 0)
  {
    if l == [] {
      assert [] + [r] == [r];
    } else {
      assert (l + [r])[1..] == l[1..] + [r];
      NetAppend(l[1..], r, symbol);
    }
  }

  lemma {:induction false} SpentAppend(l: seq<Record>, r: Record)
    ensures Spent(l + [r]) == Spent(l) + Amount(r)
  {
    if l == [] {
      assert [] + [r] == [r];
    } else {
      assert (l + [r])[1..] == l[1..] + [r];
      SpentAppend(l[1..], r);
    }
  }

  /** A symbol that was never traded has a net holding of zero. */
  lemma {:induction false} UntradedNetZero(l: seq<Record>, symbol: string)
    requires !Traded(l, symbol)
    ensures Net(l, symbol) == 0
  {
    if l != [] {
      assert l[0] in l;
      assert forall r :: r in l[1..] ==> r in l;
      UntradedNetZero(l[1..], symbol);
    }
  }

  /** The distinct symbols of the ledger, in order of their first record. */
  function Symbols(l: seq<Record>): (r: seq<string>)
    ensures forall s :: s in r <==> Traded(l, s)
    ensures forall i, j :: 0 <= i < j < |r| ==> r[i] != r[j]
  {
    if l == [] then []
    else
      var init := l[..|l| - 1];
      var last := l[|l| - 1];
      assert l == init + [last];
      var rest := Symbols(init);
      if last.symbol in rest then rest else rest + [last.symbol]
  }
}
