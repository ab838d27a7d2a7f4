/** The alphabetic suffix of a `oneOf` variant: bijective base-26 numbering. */
module VariantSuffix {
  import opened Characters

  function Letter(d: nat): (c: char)
    requires d < 26
    ensures IsUpper(c) && c as int == 65 + d
  {
    (65 + d) as char
  }

  /** The suffix of index `n`: its last letter, preceded by the suffix of the carry. */
  function Suffix(n: nat): (s: string)
    ensures s != "" && forall i | 0 <= i < |s| :: IsUpper(s[i])
  {
    (if n < 26 then "" else Suffix(n / 26 - 1)) + [Letter(n % 26)]
  }

  /** The index a suffix stands for. */
  function IndexOf(s: string): nat
    requires s != "" && forall i | 0 <= i < |s| :: IsUpper(s[i])
  {
    assert IsUpper(s[|s| - 1]);
    (if |s| == 1 then 0 else (IndexOf(s[..|s| - 1]) + 1) * 26) + (s[|s| - 1] as int - 65)
  }

  lemma {:induction false} IndexOfSuffix(n: nat)
    ensures IndexOf(Suffix(n)) == n
  {
    var s := Suffix(n);
    if n >= 26 {
      IndexOfSuffix(n / 26 - 1);
      assert s[..|s| - 1] == Suffix(n / 26 - 1);
    }
  }

  lemma {:induction false} CarryAndDigit(carry: nat, d: nat)
    requires d < 26
    ensures ((carry + 1) * 26 + d) / 26 == carry + 1 && ((carry + 1) * 26 + d) % 26 == d
  {
  }

  lemma {:induction false} SuffixOfCarry(n: nat, carry: nat, d: nat)
    requires d < 26 && n == (carry + 1) * 26 + d
    ensures Suffix(n) == Suffix(carry) + [Letter(d)]
  {
    CarryAndDigit(carry, d);
  }

  ghost predicate IsWord(s: string) {
    s != "" && forall i | 0 <= i < |s| :: IsUpper(s[i])
  }

  lemma {:induction false} IndexSnoc(front: string, last: char)
    requires IsWord(front) && IsUpper(last)
    ensures IsWord(front + [last]) && IndexOf(front + [last]) == (IndexOf(front) + 1) * 26 + (last as int - 65)
  {
    assert (front + [last])[..|front|] == front;
  }

  /** Every non-empty word over A to Z is the suffix of exactly one index. */
  lemma {:induction false} SuffixOfIndex(s: string)
    requires s != "" && forall i | 0 <= i < |s| :: IsUpper(s[i])
    ensures Suffix(IndexOf(s)) == s
  {
    var last := s[|s| - 1];
    assert IsUpper(last) && Letter(last as int - 65) == last;
    if |s| > 1 {
      var front := s[..|s| - 1];
      assert s == front + [last];
      SuffixOfIndex(front);
      IndexSnoc(front, last);
      SuffixOfCarry(IndexOf(s), IndexOf(front), last as int - 65);
    } else {
      assert s == [last];
    }
  }

  lemma {:induction false} SuffixesDiffer(m: nat, n: nat)
    requires m != n
    ensures Suffix(m) != Suffix(n)
  {
    IndexOfSuffix(m);
    IndexOfSuffix(n);
  }

  /** `variantSuffix`: the loop peels letters off the right until the carry runs out. */
  method ComputeSuffix(index: nat) returns (suffix: string)
    ensures suffix == Suffix(index)
    ensures IndexOf(suffix) == index
  {
    IndexOfSuffix(index);
    var n: int := index;
    suffix := [Letter(n % 26)];
    n := n / 26 - 1;
    while n >= 0
      invariant -1 <= n
      invariant Suffix(index) == (if n < 0 then "" else Suffix(n)) + suffix
    {
      suffix := [Letter(n % 26)] + suffix;
      n := n / 26 - 1;
    }
  }
}
