/** The invoice × description quantity matrix the script builds with
    `groupby([...])['Quantity'].sum().unstack().fillna(0)`. */
module Baskets {
  import opened Transactions

  /** A group key: (invoice, description). */
  type Key = (string, string)

  /** Rows are invoices, columns are descriptions, cells are summed quantities. */
  type Basket = map<string, map<string, int>>

  /** What a cell means: the total quantity of the records with that invoice and description. */
  function LineTotal(rs: seq<Record>, inv: string, desc: string): int {
    if rs == [] then 0
    else
      (if rs[0].invoice == inv && rs[0].description == desc then rs[0].quantity else 0)
      + LineTotal(rs[1..], inv, desc)
  }

  /** Some record has this invoice and description. */
  predicate HasLine(rs: seq<Record>, inv: string, desc: string) {
    exists x :: x in rs && x.invoice == inv && x.description == desc
  }

  lemma {:induction false} LineTotalSnoc(rs: seq<Record>, x: Record, inv: string, desc: string)
    ensures LineTotal(rs + [x], inv, desc)
         == LineTotal(rs, inv, desc) + (if x.invoice == inv && x.description == desc then x.quantity else 0)
  {
    if rs == [] {
      assert rs + [x] == [x];
    } else {
      assert (rs + [x])[1..] == rs[1..] + [x];
      LineTotalSnoc(rs[1..], x, inv, desc);
    }
  }

  /** A pair no record carries totals 0. */
  lemma {:induction false} LineTotalAbsent(rs: seq<Record>, inv: string, desc: string)
    requires !HasLine(rs, inv, desc)
    ensures LineTotal(rs, inv, desc) == 0
  {
    if rs != [] {
      LineTotalAbsent(rs[1..], inv, desc);
    }
  }

  /** Every pair no record carries totals 0. */
  lemma LineTotalsAbsent(rs: seq<Record>)
    ensures forall inv, desc :: !HasLine(rs, inv, desc) ==> LineTotal(rs, inv, desc) == 0
  {
    forall inv, desc | !HasLine(rs, inv, desc)
      ensures LineTotal(rs, inv, desc) == 0
    {
      LineTotalAbsent(rs, inv, desc);
    }
  }

  /** Once returns are gone, a pair's total is at least 1 exactly when some record carries it. */
  lemma {:induction false} LineTotalOfPurchases(rs: seq<Record>, inv: string, desc: string)
    requires forall x :: x in rs ==> x.quantity > 0
    ensures LineTotal(rs, inv, desc) >= 1 <==> HasLine(rs, inv, desc)
    ensures LineTotal(rs, inv, desc) >= 0
  {
    if rs != [] {
      assert rs[0] in rs;
      LineTotalOfPurchases(rs[1..], inv, desc);
      assert HasLine(rs, inv, desc) <==>
        (rs[0].invoice == inv && rs[0].description == desc) || HasLine(rs[1..], inv, desc) by {
        assert rs == [rs[0]] + rs[1..];
      }
    }
  }

  /** `groupby([InvoiceNo, Description])['Quantity'].sum()`: the records folded in row
      order into one running total per key that occurs. */
  function GroupSum(rs: seq<Record>): (g: map<Key, int>)
    ensures forall k :: k in g <==> HasLine(rs, k.0, k.1)
  {
    if rs == [] then map[]
    else
      var g := GroupSum(rs[..|rs| - 1]);
      var x := rs[|rs| - 1];
      var k := (x.invoice, x.description);
      assert rs == rs[..|rs| - 1] + [x];
      assert forall y :: y in rs <==> y in rs[..|rs| - 1] || y == x;
      g[k := (if k in g then g[k] else 0) + x.quantity]
  }

  /** The grouped series has exactly the keys that occur, each with its line total. */
  lemma {:induction false} GroupSumTotals(rs: seq<Record>)
    ensures forall k :: k in GroupSum(rs) <==> HasLine(rs, k.0, k.1)
    ensures forall k :: k in GroupSum(rs) ==> GroupSum(rs)[k] == LineTotal(rs, k.0, k.1)
  {
    if rs != [] {
      var p, x := rs[..|rs| - 1], rs[|rs| - 1];
      assert rs == p + [x];
      GroupSumTotals(p);
      forall k: Key
        ensures k in GroupSum(rs) <==> HasLine(rs, k.0, k.1)
        ensures k in GroupSum(rs) ==> GroupSum(rs)[k] == LineTotal(rs, k.0, k.1)
      {
        LineTotalSnoc(p, x, k.0, k.1);
        if !HasLine(p, k.0, k.1) {
          LineTotalAbsent(p, k.0, k.1);
        }
        assert HasLine(rs, k.0, k.1) <==>
          HasLine(p, k.0, k.1) || (x.invoice == k.0 && x.description == k.1) by {
          if HasLine(rs, k.0, k.1) {
            var y :| y in rs && y.invoice == k.0 && y.description == k.1;
            assert y in p || y == x;
          }
        }
      }
    }
  }

  /** The invoices (row labels) of a grouped series. */
  function RowLabels(g: map<Key, int>): set<string> {
    set k | k in g :: k.0
  }

  /** The descriptions (column labels) of a grouped series. */
  function ColumnLabels(g: map<Key, int>): set<string> {
    set k | k in g :: k.1
  }

  /** One row of the unstacked matrix: a cell per column label, 0 where the pair was not grouped. */
  function FilledRow(g: map<Key, int>, inv: string, columns: set<string>): (row: map<string, int>)
    ensures row.Keys == columns
    ensures forall d :: d in columns ==> row[d] == if (inv, d) in g then g[(inv, d)] else 0
  {
    map d | d in columns :: if (inv, d) in g then g[(inv, d)] else 0
  }

  /** `.unstack().fillna(0)`: one row per invoice, one column per description, every row
      holding every column, a pair that was not grouped filled with 0. */
  function Unstack(g: map<Key, int>): (b: Basket)
    ensures b.Keys == RowLabels(g)
    ensures forall inv :: inv in b ==> b[inv] == FilledRow(g, inv, ColumnLabels(g))
  {
    map inv | inv in RowLabels(g) :: FilledRow(g, inv, ColumnLabels(g))
  }

  /** The basket matrix of a sequence of (already filtered) records. */
  function BuildBasket(rs: seq<Record>): (b: Basket)
    ensures forall inv, d :: inv in b && d in b[inv] ==> b[inv][d] == LineTotal(rs, inv, d)
  {
    GroupSumTotals(rs);
    LineTotalsAbsent(rs);
    Unstack(GroupSum(rs))
  }

  /** Reading a cell with absent rows and columns counted as 0. */
  function Cell(b: Basket, inv: string, desc: string): int {
    if inv in b && desc in b[inv] then b[inv][desc] else 0
  }

  /** The row labels are the invoices present. */
  lemma RowsAreInvoices(rs: seq<Record>)
    ensures forall inv :: inv in RowLabels(GroupSum(rs)) <==> exists x :: x in rs && x.invoice == inv
  {
    var g := GroupSum(rs);
    GroupSumTotals(rs);
    forall inv
      ensures inv in RowLabels(g) <==> exists x :: x in rs && x.invoice == inv
    {
      if x :| x in rs && x.invoice == inv {
        assert (x.invoice, x.description) in g;
      }
      if inv in RowLabels(g) {
        var k :| k in g && k.0 == inv;
        assert HasLine(rs, k.0, k.1);
      }
    }
  }

  /** The column labels are the descriptions present. */
  lemma ColumnsAreDescriptions(rs: seq<Record>)
    ensures forall d :: d in ColumnLabels(GroupSum(rs)) <==> exists x :: x in rs && x.description == d
  {
    var g := GroupSum(rs);
    GroupSumTotals(rs);
    forall d
      ensures d in ColumnLabels(g) <==> exists x :: x in rs && x.description == d
    {
      if x :| x in rs && x.description == d {
        assert (x.invoice, x.description) in g;
      }
      if d in ColumnLabels(g) {
        var k :| k in g && k.1 == d;
        assert HasLine(rs, k.0, k.1);
      }
    }
  }

  /** The rows are the invoices present, and every row has a column for every description present. */
  lemma BasketShape(rs: seq<Record>)
    ensures forall inv :: inv in BuildBasket(rs) <==> exists x :: x in rs && x.invoice == inv
    ensures forall inv, d :: inv in BuildBasket(rs) ==>
      (d in BuildBasket(rs)[inv] <==> exists x :: x in rs && x.description == d)
  {
    RowsAreInvoices(rs);
    ColumnsAreDescriptions(rs);
  }

  /** Every cell, present or not, equals the line total of its invoice and description. */
  lemma BasketCells(rs: seq<Record>, inv: string, desc: string)
    ensures Cell(BuildBasket(rs), inv, desc) == LineTotal(rs, inv, desc)
  {
    GroupSumTotals(rs);
    if (inv, desc) !in GroupSum(rs) {
      LineTotalAbsent(rs, inv, desc);
    }
  }
}
