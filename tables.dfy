/** Row selection on a table by a boolean mask, as `df[mask]` does in pandas. */
module Tables {

  /** The rows of `s` for which `keep` holds, in their original order. */
  function Where<T(==,!new)>(s: seq<T>, keep: T -> bool): (r: seq<T>)
    ensures |r| <= |s|
    ensures forall x :: x in r <==> x in s && keep(x)
  {
    if s == [] then []
    else
      assert s == [s[0]] + s[1..];
      (if keep(s[0]) then [s[0]] else []) + Where(s[1..], keep)
  }

  /** Selection keeps every copy of an accepted row and no copy of a rejected one. */
  lemma {:induction false} WhereCounts<T(!new)>(s: seq<T>, keep: T -> bool)
    ensures forall x :: multiset(Where(s, keep))[x] == if keep(x) then multiset(s)[x] else 0
  {
    if s != [] {
      assert s == [s[0]] + s[1..];
      WhereCounts(s[1..], keep);
    }
  }

  /** Selecting rows commutes with concatenating tables. */
  lemma {:induction false} WhereConcat<T(!new)>(a: seq<T>, b: seq<T>, keep: T -> bool)
    ensures Where(a + b, keep) == Where(a, keep) + Where(b, keep)
  {
    if a == [] {
      assert a + b == b;
    } else {
      assert (a + b)[1..] == a[1..] + b;
      WhereConcat(a[1..], b, keep);
    }
  }

  /** A row the mask rejects can be taken out before selecting. */
  lemma WhereSkips<T(!new)>(a: seq<T>, x: T, b: seq<T>, keep: T -> bool)
    requires !keep(x)
    ensures Where(a + [x] + b, keep) == Where(a + b, keep)
  {
    WhereConcat(a + [x], b, keep);
    WhereConcat(a, [x], keep);
    WhereConcat(a, b, keep);
  }

  /** A row the mask accepts stays in its place. */
  lemma WhereKeeps<T(!new)>(a: seq<T>, x: T, b: seq<T>, keep: T -> bool)
    requires keep(x)
    ensures Where(a + [x] + b, keep) == Where(a, keep) + [x] + Where(b, keep)
  {
    WhereConcat(a + [x], b, keep);
    WhereConcat(a, [x], keep);
    assert Where([x], keep) == [x] by { assert [x][1..] == []; }
  }
}
