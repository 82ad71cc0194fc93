/** The script's steps from loaded records to the boolean matrix, composed. */
module Pipeline {
  import opened Transactions
  import opened Baskets
  import opened Binarize

  /** Filter, group and pivot, binarise. */
  function PresenceOf(rs: seq<Record>): (p: Presence)
    ensures forall inv, d :: inv in p && d in p[inv] ==> (p[inv][d] <==> LineTotal(Clean(rs), inv, d) >= 1)
  {
    PresenceMatrix(BuildBasket(Clean(rs)))
  }

  /** The matrix has a row for each invoice with a kept record and, in each row, a column
      for each description of a kept record. */
  lemma PresenceShape(rs: seq<Record>)
    ensures forall inv :: inv in PresenceOf(rs) <==> exists x :: x in rs && Kept(x) && x.invoice == inv
    ensures forall inv, d :: inv in PresenceOf(rs) ==>
      (d in PresenceOf(rs)[inv] <==> exists x :: x in rs && Kept(x) && x.description == d)
  {
    var b := BuildBasket(Clean(rs));
    assert PresenceOf(rs).Keys == b.Keys;
    BasketShape(Clean(rs));
  }

  /** A cell is true exactly where a kept record has that invoice and description: returns
      and other regions leave no mark. */
  lemma PresenceMeansPurchased(rs: seq<Record>)
    ensures forall inv, d :: inv in PresenceOf(rs) && d in PresenceOf(rs)[inv] ==>
      (PresenceOf(rs)[inv][d] <==> exists x :: x in rs && Kept(x) && x.invoice == inv && x.description == d)
  {
    var kept := Clean(rs);
    var b := BuildBasket(kept);
    forall inv, d | inv in PresenceOf(rs) && d in PresenceOf(rs)[inv]
      ensures PresenceOf(rs)[inv][d] <==> exists x :: x in rs && Kept(x) && x.invoice == inv && x.description == d
    {
      assert inv in b && d in b[inv];
      BasketCells(kept, inv, d);
      LineTotalOfPurchases(kept, inv, d);
      assert HasLine(kept, inv, d) <==> exists x :: x in rs && Kept(x) && x.invoice == inv && x.description == d;
    }
  }

  /** Every basket cell is the total of the kept records for its invoice and description. */
  lemma BasketCountsKept(rs: seq<Record>, inv: string, desc: string)
    ensures Cell(BuildBasket(Clean(rs)), inv, desc) >= 0
    ensures Cell(BuildBasket(Clean(rs)), inv, desc) == LineTotal(Clean(rs), inv, desc)
  {
    BasketCells(Clean(rs), inv, desc);
    LineTotalOfPurchases(Clean(rs), inv, desc);
  }

  /** Adding a return, or a record from another region, anywhere in the input changes
      neither the basket nor the boolean matrix. */
  lemma DroppedRecordsLeaveNoTrace(a: seq<Record>, x: Record, b: seq<Record>)
    requires !Kept(x)
    ensures BuildBasket(Clean(a + [x] + b)) == BuildBasket(Clean(a + b))
    ensures PresenceOf(a + [x] + b) == PresenceOf(a + b)
  {
    CleanSkipsDropped(a, x, b);
  }
}
