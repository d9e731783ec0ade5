/** The scale loop of the byte formatter. */
module Format {
  import opened GoInt

  const UNIT: int := 1024
  const PREFIXES := "KMGTPE"

  function Pow1024(e: nat): (p: int)
    ensures p >= 1
  {
    if e == 0 then 1 else UNIT * Pow1024(e - 1)
  }

  lemma {:induction false} PowAtLeast(e: nat)
    requires e >= 7
    ensures Pow1024(e) > TWO_63
  {
    if e == 7 {
      assert Pow1024(3) == 0x4000_0000;
      assert Pow1024(5) == 0x4_0000_0000_0000;
      assert Pow1024(7) == UNIT * (UNIT * Pow1024(5));
    } else {
      PowAtLeast(e - 1);
    }
  }

  lemma NextQuotient(n: nat, div: int)
    requires div >= 1
    ensures (n / div) / UNIT == n / (div * UNIT)
  {
    var m := n / div;
    var q := m / UNIT;
    var r := n % div + div * (m % UNIT);
    assert n == div * m + n % div && m == UNIT * q + m % UNIT;
    assert n == (div * UNIT) * q + r;
    MulLe(m % UNIT, UNIT - 1, div);
    assert 0 <= r < div * UNIT;
    QuotientIs(n, div * UNIT, q, r);
  }

  lemma PrefixedPowers(exp: nat)
    requires exp < 6
    ensures (Pow1024(exp + 1), PREFIXES[exp])
         in {(0x400, 'K'), (0x10_0000, 'M'), (0x4000_0000, 'G'), (0x100_0000_0000, 'T'),
             (0x4_0000_0000_0000, 'P'), (0x1000_0000_0000_0000, 'E')}
  {
    assert Pow1024(1) == 0x400 && Pow1024(2) == 0x10_0000 && Pow1024(3) == 0x4000_0000;
    assert Pow1024(4) == UNIT * Pow1024(3) && Pow1024(5) == UNIT * Pow1024(4) && Pow1024(6) == UNIT * Pow1024(5);
  }

  lemma StillFits(n: nat, div: int)
    requires div >= 1 && n / div >= UNIT
    ensures div * UNIT <= n
  {
    assert n == div * (n / div) + n % div;
    MulLe(UNIT, n / div, div);
  }

  lemma Brackets(n: nat, div: int)
    requires div >= 1 && 1 <= n / div < UNIT
    ensures div <= n < UNIT * div
  {
    assert n == div * (n / div) + n % div;
    MulLe(1, n / div, div);
    MulLe(n / div, UNIT - 1, div);
  }

  /** Picks the divisor and the prefix for a byte count: the largest power of 1024
      that does not exceed it. Below 1024 the count is printed plainly. */
  method HumanBytes(n: int) returns (plain: bool, div: int, prefix: char)
    requires IsInt64(n)
    ensures plain <==> n < 1024
    ensures plain ==> div == 1 && prefix == 'B'
    ensures !plain ==> div <= n < 1024 * div && IsInt64(div)
    ensures !plain ==> (div, prefix) in {(0x400, 'K'), (0x10_0000, 'M'), (0x4000_0000, 'G'), (0x100_0000_0000, 'T'),
                                         (0x4_0000_0000_0000, 'P'), (0x1000_0000_0000_0000, 'E')}
  {
    if n < UNIT {
      return true, 1, 'B';
    }
    plain, div := false, UNIT;
    var exp: nat := 0;
    var m := n / UNIT;
    assert Pow1024(1) == UNIT * Pow1024(0);
    while m >= UNIT
      invariant div == Pow1024(exp + 1)
      invariant m == n / div && m >= 1
      invariant IsInt64(div)
      decreases m
    {
      NextQuotient(n, div);
      StillFits(n, div);
      div := div * UNIT;
      exp := exp + 1;
      m := m / UNIT;
    }
    Brackets(n, div);
    if exp >= 6 {
      PowAtLeast(exp + 1);
    }
    prefix := PREFIXES[exp];
    PrefixedPowers(exp);
  }
}
