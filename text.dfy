/** Python's `str.strip()` and `str.lower()` on the characters the model covers. */
module Text {

  /** Whitespace as `str.isspace` defines it: the code points `str.strip()` removes. */
  predicate IsSpace(c: char) {
    var n := c as int;
    || (0x09 <= n <= 0x0D) || (0x1C <= n <= 0x20) || n == 0x85 || n == 0xA0 || n == 0x1680
    || (0x2000 <= n <= 0x200A) || n == 0x2028 || n == 0x2029 || n == 0x202F || n == 0x205F
    || n == 0x3000
  }

  predicate AllSpace(s: string) {
    forall i :: 0 <= i < |s| ==> IsSpace(s[i])
  }

  /** `s` has no whitespace at either end: what `strip` produces. */
  predicate Trimmed(s: string) {
    s == [] || (!IsSpace(s[0]) && !IsSpace(s[|s| - 1]))
  }

  /** The scan `str.strip()` runs from the left: the first non-whitespace index at or after `i`. */
  function SkipSpaceForward(s: string, i: nat): (k: nat)
    requires i <= |s|
    ensures i <= k <= |s|
    ensures forall n :: i <= n < k ==> IsSpace(s[n])
    ensures k == |s| || !IsSpace(s[k])
    decreases |s| - i
  {
    if i < |s| && IsSpace(s[i]) then SkipSpaceForward(s, i + 1) else i
  }

  /** The scan `str.strip()` runs from the right, never passing `lo`: the end of the
      last non-whitespace character before `j`. */
  function SkipSpaceBackward(s: string, lo: nat, j: nat): (k: nat)
    requires lo <= j <= |s|
    ensures lo <= k <= j
    ensures forall n :: k <= n < j ==> IsSpace(s[n])
    ensures k == lo || !IsSpace(s[k - 1])
  {
    if lo < j && IsSpace(s[j - 1]) then SkipSpaceBackward(s, lo, j - 1) else j
  }

  /** The two scans are determined by what they promise. */
  lemma SkipSpaceForwardUnique(s: string, i: nat, k: nat)
    requires i <= k <= |s|
    requires forall n :: i <= n < k ==> IsSpace(s[n])
    requires k == |s| || !IsSpace(s[k])
    ensures SkipSpaceForward(s, i) == k
  {
  }

  lemma SkipSpaceBackwardUnique(s: string, lo: nat, j: nat, k: nat)
    requires lo <= k <= j <= |s|
    requires forall n :: k <= n < j ==> IsSpace(s[n])
    requires k == lo || !IsSpace(s[k - 1])
    ensures SkipSpaceBackward(s, lo, j) == k
  {
  }

  /** `str.strip()`: whitespace removed from both ends. */
  function Strip(s: string): (r: string)
    ensures Trimmed(r)
    ensures |r| <= |s|
    ensures r == [] <==> AllSpace(s)
  {
    var i := SkipSpaceForward(s, 0);
    var j := SkipSpaceBackward(s, i, |s|);
    s[i..j]
  }

  /** `strip` undoes any whitespace padding of a trimmed string. */
  lemma StripPadded(w1: string, m: string, w2: string)
    requires AllSpace(w1) && AllSpace(w2) && Trimmed(m)
    ensures Strip(w1 + m + w2) == m
  {
    var s := w1 + m + w2;
    var i, j := |w1|, |w1| + |m|;
    if m == [] {
      SkipSpaceForwardUnique(s, 0, |s|);
      SkipSpaceBackwardUnique(s, |s|, |s|, |s|);
    } else {
      assert s[i] == m[0];
      SkipSpaceForwardUnique(s, 0, i);
      assert s[j - 1] == m[|m| - 1];
      SkipSpaceBackwardUnique(s, i, |s|, j);
      assert s[i..j] == m;
    }
  }

  /** A string with no whitespace at its ends is its own stripped form. */
  lemma StripTrimmed(s: string)
    requires Trimmed(s)
    ensures Strip(s) == s
  {
    StripPadded([], s, []);
    assert [] + s + [] == s;
  }

  /** Every string is its stripped form with whitespace on either side. */
  lemma StripSplit(s: string) returns (a: string, b: string)
    ensures AllSpace(a) && AllSpace(b)
    ensures s == a + Strip(s) + b
  {
    var i := SkipSpaceForward(s, 0);
    var j := SkipSpaceBackward(s, i, |s|);
    a, b := s[..i], s[j..];
    assert s == s[..i] + s[i..j] + s[j..];
  }

  lemma StripIdempotent(s: string)
    ensures Strip(Strip(s)) == Strip(s)
  {
    StripPadded([], Strip(s), []);
    assert [] + Strip(s) + [] == Strip(s);
  }

  /** Surrounding whitespace does not change the stripped form. */
  lemma AllSpaceConcat(u: string, v: string)
    requires AllSpace(u) && AllSpace(v)
    ensures AllSpace(u + v)
  {
    forall i | 0 <= i < |u + v|
      ensures IsSpace((u + v)[i])
    {
      if i >= |u| {
        assert (u + v)[i] == v[i - |u|];
      }
    }
  }

  lemma Regroup(w1: string, a: string, m: string, b: string, w2: string)
    ensures w1 + (a + m + b) + w2 == (w1 + a) + m + (b + w2)
  {
  }

  lemma StripIgnoresPadding(w1: string, s: string, w2: string)
    requires AllSpace(w1) && AllSpace(w2)
    ensures Strip(w1 + s + w2) == Strip(s)
  {
    var a, b := StripSplit(s);
    var m := Strip(s);
    AllSpaceConcat(w1, a);
    AllSpaceConcat(b, w2);
    Regroup(w1, a, m, b, w2);
    StripPadded(w1 + a, m, b + w2);
  }

  /** `str.lower()` on one character: ASCII upper-case letters become lower-case. */
  function LowerChar(c: char): (d: char)
    ensures IsSpace(d) <==> IsSpace(c)
    ensures !('A' <= d <= 'Z')
    ensures d != c ==> 'A' <= c <= 'Z'
    ensures 'A' <= c <= 'Z' ==> 'a' <= d <= 'z' && d as int - 'a' as int == c as int - 'A' as int
  {
    if 'A' <= c <= 'Z' then (c as int + 32) as char else c
  }

  /** `str.lower()`: every character mapped through LowerChar. */
  function Lower(s: string): (r: string)
    ensures |r| == |s|
    ensures forall i :: 0 <= i < |s| ==> r[i] == LowerChar(s[i])
  {
    if s == [] then [] else [LowerChar(s[0])] + Lower(s[1..])
  }

  lemma LowerIdempotent(s: string)
    ensures Lower(Lower(s)) == Lower(s)
  {
  }

  lemma LowerConcat(a: string, b: string)
    ensures Lower(a + b) == Lower(a) + Lower(b)
  {
  }

  /** Lower-casing neither adds nor removes whitespace, so it commutes with `strip`. */
  lemma StripLowerCommute(s: string)
    ensures Strip(Lower(s)) == Lower(Strip(s))
  {
    var a, b := StripSplit(s);
    var m := Strip(s);
    assert Lower(s) == Lower(a) + Lower(m) + Lower(b) by {
      LowerConcat(a + m, b);
      LowerConcat(a, m);
    }
    assert AllSpace(Lower(a)) && AllSpace(Lower(b)) && Trimmed(Lower(m));
    StripPadded(Lower(a), Lower(m), Lower(b));
  }

  /** The normal form of a product name: `name.strip().lower()`. */
  function Normalize(s: string): (r: string)
    ensures Trimmed(r)
    ensures Lower(r) == r
  {
    StripLowerCommute(s);
    StripIdempotent(Lower(s));
    LowerIdempotent(Strip(s));
    Lower(Strip(s))
  }

  /** A name already trimmed and lower-case is its own normal form. */
  lemma NormalizeFixed(s: string)
    requires Trimmed(s) && Lower(s) == s
    ensures Normalize(s) == s
  {
    StripTrimmed(s);
  }

  lemma NormalizeIdempotent(s: string)
    ensures Normalize(Normalize(s)) == Normalize(s)
  {
    StripPadded([], Normalize(s), []);
    assert [] + Normalize(s) + [] == Normalize(s);
  }

  /** Names that differ only in surrounding whitespace have the same normal form. */
  lemma NormalizeIgnoresPadding(w1: string, s: string, w2: string)
    requires AllSpace(w1) && AllSpace(w2)
    ensures Normalize(w1 + s + w2) == Normalize(s)
  {
    StripIgnoresPadding(w1, s, w2);
  }

  /** Names that differ only in letter case have the same normal form. */
  lemma NormalizeIgnoresCase(a: string, b: string)
    requires Lower(a) == Lower(b)
    ensures Normalize(a) == Normalize(b)
  {
    StripLowerCommute(a);
    StripLowerCommute(b);
  }
}
