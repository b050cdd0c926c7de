/** The record IDs of the managed index, `person_{person_id}_vector_{n}`, and the fact
    that distinct (person, vector number) pairs never collide. */
module RecordIds {

  predicate IsDigit(c: char)
  {
    '0' <= c <= '9'
  }

  function DigitChar(d: nat): (c: char)
    requires d < 10
    ensures IsDigit(c)
  {
    (48 + d) as char
  }

  /** Decimal rendering of a natural number, most significant digit first. */
  function NatToDecimal(n: nat): (s: string)
    ensures |s| >= 1
    ensures n >= 10 ==> |s| >= 2
    ensures forall i :: 0 <= i < |s| ==> IsDigit(s[i])
    decreases n
  {
    if n < 10 then [DigitChar(n)] else NatToDecimal(n / 10) + [DigitChar(n % 10)]
  }

  lemma {:induction false} NatToDecimalInjective(a: nat, b: nat)
    requires NatToDecimal(a) == NatToDecimal(b)
    ensures a == b
    decreases a
  {
    var sa, sb := NatToDecimal(a), NatToDecimal(b);
    if a >= 10 && b >= 10 {
      assert sa[|sa| - 1] == DigitChar(a % 10) && sb[|sb| - 1] == DigitChar(b % 10);
      assert sa[..|sa| - 1] == NatToDecimal(a / 10);
      assert sb[..|sb| - 1] == NatToDecimal(b / 10);
      NatToDecimalInjective(a / 10, b / 10);
    }
  }

  /** Python's `str` of an int: an optional minus sign, then the decimal digits. */
  function IntToString(i: int): (s: string)
    ensures |s| >= 1
    ensures forall k :: 0 <= k < |s| ==> s[k] != '_'
  {
    if i < 0 then "-" + NatToDecimal(-i) else NatToDecimal(i)
  }

  lemma IntToStringInjective(a: int, b: int)
    requires IntToString(a) == IntToString(b)
    ensures a == b
  {
    assert (a < 0) == (IntToString(a)[0] == '-');
    assert (b < 0) == (IntToString(b)[0] == '-');
    if a < 0 {
      assert IntToString(a)[1..] == NatToDecimal(-a);
      assert IntToString(b)[1..] == NatToDecimal(-b);
      NatToDecimalInjective(-a, -b);
    } else {
      NatToDecimalInjective(a, b);
    }
  }

  /** The f-string `f"person_{person_id}_vector_{n}"`. */
  function IdString(personId: int, n: int): string
  {
    "person_" + (IntToString(personId) + ("_vector_" + IntToString(n)))
  }

  lemma PrefixCancel(pre: string, a: string, b: string)
    requires pre + a == pre + b
    ensures a == b
  {
    assert a == (pre + a)[|pre|..];
    assert b == (pre + b)[|pre|..];
  }

  /** Two underscore-free words followed by the same separator agree when the whole strings agree. */
  lemma SplitAtUnderscore(a: string, b: string, x: string, y: string)
    requires forall k :: 0 <= k < |a| ==> a[k] != '_'
    requires forall k :: 0 <= k < |b| ==> b[k] != '_'
    requires |x| >= 1 && x[0] == '_' && |y| >= 1 && y[0] == '_'
    requires a + x == b + y
    ensures a == b && x == y
  {
    FirstUnderscore(a, x);
    FirstUnderscore(b, y);
    assert |a| == |b|;
    assert a == (a + x)[..|a|] && b == (b + y)[..|b|];
    assert x == (a + x)[|a|..] && y == (b + y)[|b|..];
  }

  /** In `a + x`, with `a` free of underscores and `x` starting with one, the first underscore sits at `|a|`. */
  lemma FirstUnderscore(a: string, x: string)
    requires forall k :: 0 <= k < |a| ==> a[k] != '_'
    requires |x| >= 1 && x[0] == '_'
    ensures (a + x)[|a|] == '_'
    ensures forall k :: 0 <= k < |a| ==> (a + x)[k] != '_'
  {
  }

  /** Distinct (person, vector number) pairs give distinct record IDs. */
  lemma IdStringInjective(p1: int, n1: int, p2: int, n2: int)
    requires IdString(p1, n1) == IdString(p2, n2)
    ensures p1 == p2 && n1 == n2
  {
    var a, b := IntToString(p1), IntToString(p2);
    var x, y := "_vector_" + IntToString(n1), "_vector_" + IntToString(n2);
    PrefixCancel("person_", a + x, b + y);
    SplitAtUnderscore(a, b, x, y);
    IntToStringInjective(p1, p2);
    PrefixCancel("_vector_", IntToString(n1), IntToString(n2));
    IntToStringInjective(n1, n2);
  }

  /** The contrapositive: a different person or a different number gives a different ID. */
  lemma IdStringsDiffer(p1: int, n1: int, p2: int, n2: int)
    ensures (p1 != p2 || n1 != n2) ==> IdString(p1, n1) != IdString(p2, n2)
  {
    if IdString(p1, n1) == IdString(p2, n2) {
      IdStringInjective(p1, n1, p2, n2);
    }
  }
}
