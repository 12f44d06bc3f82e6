/** Decimal numerals as the messages of the plugin print them. */
module Numerals {

  function Digit(d: nat): char
    requires d < 10
  {
    '0' + d as char
  }

  function Decimal(n: nat): string {
    if n < 10 then [Digit(n)] else Decimal(n / 10) + [Digit(n % 10)]
  }

  /** Format `:,` of a non-negative integer: groups of three digits between commas. */
  function GroupedNat(n: nat): string {
    if n < 1000 then Decimal(n)
    else GroupedNat(n / 1000) + "," + [Digit(n / 100 % 10), Digit(n / 10 % 10), Digit(n % 10)]
  }

  function Grouped(n: int): string {
    if n < 0 then "-" + GroupedNat(-n) else GroupedNat(n)
  }

  // ---- what the numerals mean ----

  predicate IsDecimalDigit(c: char) {
    '0' <= c <= '9'
  }

  function ValueOf(s: string): int {
    if s == [] then 0 else ValueOf(s[..|s| - 1]) * 10 + (s[|s| - 1] as int - '0' as int)
  }

  function WithoutCommas(s: string): string {
    if s == [] then [] else (if s[0] == ',' then [] else [s[0]]) + WithoutCommas(s[1..])
  }

  lemma {:induction false} DecimalMeans(n: nat)
    ensures Decimal(n) != [] && (forall k :: 0 <= k < |Decimal(n)| ==> IsDecimalDigit(Decimal(n)[k]))
    ensures ValueOf(Decimal(n)) == n && (n > 0 ==> Decimal(n)[0] != '0')
  {
    assert ValueOf([]) == 0;
    if n < 10 {
      assert Decimal(n)[..0] == [];
    } else {
      DecimalMeans(n / 10);
      assert Decimal(n)[..|Decimal(n)| - 1] == Decimal(n / 10);
    }
  }

  lemma {:induction false} WithoutCommasConcat(a: string, b: string)
    ensures WithoutCommas(a + b) == WithoutCommas(a) + WithoutCommas(b)
  {
    if a == [] {
      assert a + b == b;
    } else {
      assert (a + b)[1..] == a[1..] + b;
      WithoutCommasConcat(a[1..], b);
    }
  }

  lemma {:induction false} NoCommas(s: string)
    requires forall k :: 0 <= k < |s| ==> s[k] != ','
    ensures WithoutCommas(s) == s
  {
    if s != [] {
      NoCommas(s[1..]);
    }
  }

  lemma LastThree(n: nat)
    requires n >= 1000
    ensures Decimal(n) == Decimal(n / 1000) + [Digit(n / 100 % 10), Digit(n / 10 % 10), Digit(n % 10)]
  {
    assert n / 10 / 10 == n / 100 && n / 100 / 10 == n / 1000;
    assert Decimal(n) == Decimal(n / 10) + [Digit(n % 10)];
    assert Decimal(n / 10) == Decimal(n / 100) + [Digit(n / 10 % 10)];
    assert Decimal(n / 100) == Decimal(n / 1000) + [Digit(n / 100 % 10)];
  }

  /** Every fourth character from the end is a comma, and no other. */
  ghost predicate IsGrouped(s: string) {
    forall k :: 0 <= k < |s| ==> (s[k] == ',' <==> (|s| - k) % 4 == 0)
  }

  lemma OneMoreGroup(front: string, three: string)
    requires IsGrouped(front) && |three| == 3 && forall k :: 0 <= k < 3 ==> three[k] != ','
    ensures IsGrouped(front + ([','] + three)) && WithoutCommas(front + ([','] + three)) == WithoutCommas(front) + three
  {
    GroupPositions(front, three, front + ([','] + three));
    WithoutCommasConcat(front, [','] + three);
    CommaThree(three);
  }

  lemma GroupPositions(front: string, three: string, all: string)
    requires IsGrouped(front) && |three| == 3 && forall k :: 0 <= k < 3 ==> three[k] != ','
    requires all == front + ([','] + three)
    ensures IsGrouped(all)
  {
    var n := |front|;
    forall k | 0 <= k < |all|
      ensures all[k] == ',' <==> (|all| - k) % 4 == 0
    {
      if k < n {
        assert all[k] == front[k];
        assert (n + 4 - k) % 4 == (n - k) % 4;
      } else if k > n {
        assert all[k] == three[k - n - 1];
      }
    }
  }

  lemma CommaThree(three: string)
    requires forall k :: 0 <= k < |three| ==> three[k] != ','
    ensures WithoutCommas([','] + three) == three
  {
    NoCommas(three);
    assert ([','] + three)[1..] == three;
    assert [] + three == three;
  }

  /** Grouping only adds the commas. */
  lemma {:induction false} GroupedMeans(n: nat)
    ensures WithoutCommas(GroupedNat(n)) == Decimal(n) && IsGrouped(GroupedNat(n))
  {
    if n < 1000 {
      DecimalMeans(n);
      NoCommas(Decimal(n));
      ShortDecimal(n);
    } else {
      var three := [Digit(n / 100 % 10), Digit(n / 10 % 10), Digit(n % 10)];
      GroupedMeans(n / 1000);
      LastThree(n);
      OneMoreGroup(GroupedNat(n / 1000), three);
      assert GroupedNat(n) == GroupedNat(n / 1000) + ([','] + three);
    }
  }

  lemma ShortDecimal(n: nat)
    requires n < 1000
    ensures |Decimal(n)| < 4
  {
    assert Decimal(n / 100) == [Digit(n / 100)];
  }
}
