/** Purchase records and the two row filters applied right after loading them. */
module Transactions {
  import opened Tables

  /** One line item of the retail data set (columns InvoiceNo, Description, Quantity, Country). */
  datatype Record = Record(invoice: string, description: string, quantity: int, country: string)

  /** The one region the analysis keeps. */
  const TargetRegion: string := "United Kingdom"

  /** A line with a non-positive quantity is a return. */
  predicate IsPurchase(r: Record) {
    r.quantity > 0
  }

  /** A record survives both filters. */
  predicate Kept(r: Record) {
    IsPurchase(r) && r.country == TargetRegion
  }

  /** `df[df['Quantity'] > 0]`: returns dropped. */
  function DropReturns(rs: seq<Record>): (r: seq<Record>)
    ensures forall x :: x in r <==> x in rs && x.quantity > 0
    ensures forall x :: multiset(r)[x] == if x.quantity > 0 then multiset(rs)[x] else 0
  {
    WhereCounts(rs, IsPurchase);
    Where(rs, IsPurchase)
  }

  /** The mask `df['Country'] == region`. */
  function InRegion(region: string): Record -> bool {
    (r: Record) => r.country == region
  }

  /** `df[df['Country'] == region]`: only records of one region. */
  function KeepRegion(rs: seq<Record>, region: string): (r: seq<Record>)
    ensures forall x :: x in r <==> x in rs && x.country == region
    ensures forall x :: multiset(r)[x] == if x.country == region then multiset(rs)[x] else 0
  {
    WhereCounts(rs, InRegion(region));
    Where(rs, InRegion(region))
  }

  /** Both filters in the order the script applies them. Every surviving record is a
      purchase in the target region, and every such record survives with all its copies. */
  function Clean(rs: seq<Record>): (r: seq<Record>)
    ensures forall x :: x in r <==> x in rs && Kept(x)
    ensures forall x :: multiset(r)[x] == if Kept(x) then multiset(rs)[x] else 0
  {
    KeepRegion(DropReturns(rs), TargetRegion)
  }

  /** One record alone passes both filters exactly when it is kept. */
  lemma FiltersOnOne(x: Record)
    ensures Where(Where([x], IsPurchase), InRegion(TargetRegion)) == if Kept(x) then [x] else []
  {
    assert [x][1..] == [];
  }

  /** The two filters in sequence are one selection by `Kept`: the same records, in the
      same order, with the same copies. */
  lemma {:induction false} CleanIsOneFilter(rs: seq<Record>)
    ensures Clean(rs) == Where(rs, Kept)
  {
    if rs != [] {
      var x, rest := rs[0], rs[1..];
      var region := InRegion(TargetRegion);
      assert rs == [x] + rest;
      calc {
        Clean(rs);
        Where(Where([x] + rest, IsPurchase), region);
        { WhereConcat([x], rest, IsPurchase); }
        Where(Where([x], IsPurchase) + Where(rest, IsPurchase), region);
        { WhereConcat(Where([x], IsPurchase), Where(rest, IsPurchase), region); }
        Where(Where([x], IsPurchase), region) + Clean(rest);
        { FiltersOnOne(x); CleanIsOneFilter(rest); }
        (if Kept(x) then [x] else []) + Where(rest, Kept);
        Where(rs, Kept);
      }
    }
  }

  /** A record the filters drop leaves no trace, wherever it stands in the input. */
  lemma CleanSkipsDropped(a: seq<Record>, x: Record, b: seq<Record>)
    requires !Kept(x)
    ensures Clean(a + [x] + b) == Clean(a + b)
  {
    if IsPurchase(x) {
      WhereKeeps(a, x, b, IsPurchase);
      WhereConcat(a, b, IsPurchase);
      WhereSkips(Where(a, IsPurchase), x, Where(b, IsPurchase), InRegion(TargetRegion));
    } else {
      WhereSkips(a, x, b, IsPurchase);
    }
  }
}
