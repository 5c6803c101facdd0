/** Numbers and colons inside composed keys. */
module Decimals {
  import A = Amounts

  /** The decimal text as characters. */
  function Decimal(n: nat): (s: string)
    ensures |s| == |A.DecimalText(n)| && forall i :: 0 <= i < |s| ==> s[i] as int == A.DecimalText(n)[i]
  {
    var t := A.DecimalText(n);
    assert forall i :: 0 <= i < |t| ==> t[i] in t;
    seq(|t|, i requires 0 <= i < |t| => t[i] as char)
  }

  lemma NoColon(n: nat)
    ensures ':' !in Decimal(n)
  {
    var t := A.DecimalText(n);
    forall i | 0 <= i < |Decimal(n)| ensures Decimal(n)[i] != ':' {
      assert t[i] in t;
    }
  }

  lemma DecimalInjective(m: nat, n: nat)
    requires Decimal(m) == Decimal(n)
    ensures m == n
  {
    assert A.DecimalText(m) == A.DecimalText(n);
    A.DigitsOfText(m);
    A.DigitsOfText(n);
  }

  lemma LastColon(a: string, b: string, c: string, d: string)
    requires ':' !in b && ':' !in d && a + ":" + b == c + ":" + d
    ensures a == c && b == d
  {
    var s := a + ":" + b;
    assert s[|a|] == ':' && s[|c|] == ':';
    assert forall k :: |a| < k < |s| ==> s[k] == b[k - |a| - 1];
    assert forall k :: |c| < k < |s| ==> s[k] == d[k - |c| - 1];
    assert |a| == |c|;
    assert a == s[..|a|] && c == s[..|a|] && b == s[|a| + 1..] && d == s[|a| + 1..];
  }
}
