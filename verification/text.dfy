/** The string operations the service relies on: String.contains, the decimal
    rendering of a long in string concatenation, and joining a list of names. */
module Text {

  /** `sub` occurs in `s` starting at index `i`. */
  predicate OccursAt(s: string, sub: string, i: int)
  {
    0 <= i && i + |sub| <= |s| && s[i..i + |sub|] == sub
  }

  /** Java's String.contains: a prefix test at every position, left to right. */
  function Contains(s: string, sub: string): bool
    decreases |s|
  {
    if sub <= s then true
    else if |s| == 0 then false
    else Contains(s[1..], sub)
  }

  /** Contains agrees with the positional definition of an occurrence, both ways. */
  lemma {:induction false} ContainsIff(s: string, sub: string)
    ensures Contains(s, sub) <==> exists i :: OccursAt(s, sub, i)
    decreases |s|
  {
    if sub <= s {
      assert s[0..|sub|] == sub;
      assert OccursAt(s, sub, 0);
    } else if |s| > 0 {
      ContainsIff(s[1..], sub);
      if Contains(s[1..], sub) {
        var i :| OccursAt(s[1..], sub, i);
        assert s[1..][i..i + |sub|] == s[i + 1..i + 1 + |sub|];
        assert OccursAt(s, sub, i + 1);
      }
      if exists i :: OccursAt(s, sub, i) {
        var i :| OccursAt(s, sub, i);
        if i != 0 {
          assert s[1..][i - 1..i - 1 + |sub|] == s[i..i + |sub|];
          assert OccursAt(s[1..], sub, i - 1);
        }
      }
    }
  }

  /** A string ending in `sub` contains it. */
  lemma ContainsSuffix(prefix: string, sub: string)
    ensures Contains(prefix + sub, sub)
  {
    ContainsIff(prefix + sub, sub);
    assert OccursAt(prefix + sub, sub, |prefix|);
  }

  /** A string missing one of the characters of `sub` does not contain it. */
  lemma MissingCharNotContained(s: string, sub: string, k: int)
    requires 0 <= k < |sub|
    requires sub[k] !in s
    ensures !Contains(s, sub)
  {
    ContainsIff(s, sub);
    forall i | 0 <= i && i + |sub| <= |s|
      ensures !OccursAt(s, sub, i)
    {
      assert s[i..i + |sub|][k] == s[i + k];
    }
  }

  // ---------------------------------------------------------------------------
  // Decimal rendering of integers ("ptt_" + System.currentTimeMillis())

  predicate IsDigit(c: char)
  {
    '0' <= c <= '9'
  }

  predicate AllDigits(s: string)
  {
    forall i :: 0 <= i < |s| ==> IsDigit(s[i])
  }

  function DigitChar(d: int): (c: char)
    requires 0 <= d < 10
    ensures IsDigit(c) && c as int - '0' as int == d
  {
    ('0' as int + d) as char
  }

  /** Decimal digits of a natural number, most significant first, no leading zero. */
  function NatToDecimal(n: nat): string
    decreases n
  {
    if n < 10 then [DigitChar(n)] else NatToDecimal(n / 10) + [DigitChar(n % 10)]
  }

  /** The value of a string of decimal digits (the partner of NatToDecimal). */
  function DecimalValue(s: string): nat
    requires AllDigits(s)
  {
    if s == [] then 0
    else DecimalValue(s[..|s| - 1]) * 10 + (s[|s| - 1] as int - '0' as int)
  }

  /** Rendering a natural number gives a non-empty run of digits that reads back as the number. */
  lemma {:induction false} NatToDecimalRoundTrip(n: nat)
    ensures |NatToDecimal(n)| >= 1 && AllDigits(NatToDecimal(n))
    ensures DecimalValue(NatToDecimal(n)) == n
    decreases n
  {
    var r := NatToDecimal(n);
    if n >= 10 {
      NatToDecimalRoundTrip(n / 10);
      assert r[..|r| - 1] == NatToDecimal(n / 10);
    }
  }

  /** Long.toString: a minus sign for negative values, then the digits of the magnitude. */
  function LongToDecimal(n: int): string
  {
    if n < 0 then "-" + NatToDecimal(-n) else NatToDecimal(n)
  }

  /** Different numbers never render to the same text. */
  lemma LongToDecimalInjective(a: int, b: int)
    requires LongToDecimal(a) == LongToDecimal(b)
    ensures a == b
  {
    NatToDecimalRoundTrip(if a < 0 then -a else a);
    NatToDecimalRoundTrip(if b < 0 then -b else b);
    assert LongToDecimal(a)[0] == '-' <==> a < 0;
    assert LongToDecimal(b)[0] == '-' <==> b < 0;
    if a < 0 && b < 0 {
      assert LongToDecimal(a)[1..] == NatToDecimal(-a);
      assert LongToDecimal(b)[1..] == NatToDecimal(-b);
    }
  }

  // ---------------------------------------------------------------------------
  // Joining names with a separator

  /** The items with `sep` between consecutive ones and nothing after the last. */
  function Joined(items: seq<string>, sep: string): string
    requires items != []
  {
    if |items| == 1 then items[0]
    else Joined(items[..|items| - 1], sep) + sep + items[|items| - 1]
  }

  /** Every item followed by `sep`, as a builder that appends item and separator produces it. */
  function Terminated(items: seq<string>, sep: string): string
  {
    if items == [] then ""
    else Terminated(items[..|items| - 1], sep) + items[|items| - 1] + sep
  }

  /** Cutting the final separator off the terminated form gives the joined form. */
  lemma {:induction false} TerminatedIsJoinedPlusSep(items: seq<string>, sep: string)
    requires items != []
    ensures Terminated(items, sep) == Joined(items, sep) + sep
    decreases |items|
  {
    var init := items[..|items| - 1];
    var last := items[|items| - 1];
    if |items| == 1 {
      assert init == [];
    } else {
      TerminatedIsJoinedPlusSep(init, sep);
      calc {
        Terminated(items, sep);
        Terminated(init, sep) + last + sep;
        (Joined(init, sep) + sep) + last + sep;
        { assert (Joined(init, sep) + sep) + last == Joined(init, sep) + sep + last; }
        Joined(items, sep) + sep;
      }
    }
  }

  /** The terminated form grows by at least the separator per item. */
  lemma {:induction false} TerminatedLength(items: seq<string>, sep: string)
    ensures |Terminated(items, sep)| >= |items| * |sep|
    decreases |items|
  {
    if items != [] {
      TerminatedLength(items[..|items| - 1], sep);
    }
  }

  /** The joined form ends with the last item itself: no trailing separator. */
  lemma JoinedEndsWithLast(items: seq<string>, sep: string)
    requires items != []
    ensures var j := Joined(items, sep);
      |j| >= |items[|items| - 1]| && j[|j| - |items[|items| - 1]|..] == items[|items| - 1]
  {
  }
}
