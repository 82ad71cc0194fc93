/** Turning summed quantities into purchased / not-purchased flags. */
module Binarize {
  import opened Baskets

  /** The boolean matrix handed to the itemset miner. */
  type Presence = map<string, map<string, bool>>

  /** `encode_units`: 1 for a quantity of at least one unit, else 0. */
  function EncodeUnits(x: int): (r: int)
    ensures r == 0 || r == 1
    ensures r == 1 <==> x >= 1
  {
    if x >= 1 then 1 else 0
  }

  /** `basket.apply(lambda col: col.map(encode_units))`: every cell encoded, shape kept. */
  function EncodeBasket(b: Basket): (e: Basket)
    ensures e.Keys == b.Keys
    ensures forall inv :: inv in b ==> e[inv].Keys == b[inv].Keys
    ensures forall inv, d :: inv in b && d in b[inv] ==> e[inv][d] == EncodeUnits(b[inv][d])
  {
    map inv | inv in b :: EncodeRow(b[inv])
  }

  function EncodeRow(row: map<string, int>): (e: map<string, int>)
    ensures e.Keys == row.Keys
    ensures forall d :: d in row ==> e[d] == EncodeUnits(row[d])
  {
    map d | d in row :: EncodeUnits(row[d])
  }

  /** `.astype(bool)` on one row: a cell is true when it is non-zero. */
  function BoolRow(row: map<string, int>): (p: map<string, bool>)
    ensures p.Keys == row.Keys
    ensures forall d :: d in row ==> (p[d] <==> row[d] != 0)
  {
    map d | d in row :: row[d] != 0
  }

  /** `.astype(bool)` on the whole matrix. */
  function AsBool(e: Basket): (p: Presence)
    ensures p.Keys == e.Keys
    ensures forall inv :: inv in e ==> p[inv] == BoolRow(e[inv])
  {
    map inv | inv in e :: BoolRow(e[inv])
  }

  /** Encoding then coercing to bool flags exactly the cells holding at least one unit,
      in a matrix of the same shape. */
  function PresenceMatrix(b: Basket): (p: Presence)
    ensures p.Keys == b.Keys
    ensures forall inv :: inv in b ==> p[inv].Keys == b[inv].Keys
    ensures forall inv, d :: inv in b && d in b[inv] ==> (p[inv][d] <==> b[inv][d] >= 1)
  {
    AsBool(EncodeBasket(b))
  }
}
