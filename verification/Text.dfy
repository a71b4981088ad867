/** C string order and number printing, as the store uses them for its references and file names. */
module Text {

  // ---------- strncmp ----------

  /** `strncpy` into a fixed field of `n` characters keeps at most `n` of them. */
  function Cut(s: string, n: nat): string { if |s| <= n then s else s[..n] }

  /** The sign of `strcmp`. */
  function Cmp(a: string, b: string): int {
    if a == [] && b == [] then 0
    else if a == [] then -1
    else if b == [] then 1
    else if a[0] < b[0] then -1
    else if a[0] > b[0] then 1
    else Cmp(a[1..], b[1..])
  }

  /** The sign of `strncmp`. */
  function CmpN(a: string, b: string, n: nat): int { Cmp(Cut(a, n), Cut(b, n)) }

  lemma {:induction false} CutMeans(s: string, n: nat)
    ensures Cut(s, n) <= s && |Cut(s, n)| == if |s| < n then |s| else n
  {
  }

  /** `a` comes before `b` when they agree up to some place where `a` ends and `b` goes on, or where the character
      of `a` is the smaller one. */
  lemma {:induction false} CmpMeans(a: string, b: string)
    ensures -1 <= Cmp(a, b) <= 1
    ensures Cmp(a, b) < 0 <==> exists i ::
      0 <= i <= |a| && i < |b| && a[..i] == b[..i] && (i == |a| || a[i] < b[i])
  {
    if a == [] || b == [] || a[0] != b[0] {
      if b != [] { assert a[..0] == b[..0]; }
    } else {
      CmpMeans(a[1..], b[1..]);
      if i :| 0 <= i <= |a| && i < |b| && a[..i] == b[..i] && (i == |a| || a[i] < b[i]) {
        assert i > 0;
        assert a[1..][..i - 1] == a[..i][1..] && b[1..][..i - 1] == b[..i][1..];
      }
      if j :| 0 <= j <= |a| - 1 && j < |b| - 1 && a[1..][..j] == b[1..][..j] && (j == |a| - 1 || a[1..][j] < b[1..][j]) {
        assert a[..j + 1] == [a[0]] + a[1..][..j] && b[..j + 1] == [b[0]] + b[1..][..j];
      }
    }
  }

  /** The same within the first `n` characters. */
  lemma {:induction false} CmpNMeans(a: string, b: string, n: nat)
    ensures CmpN(a, b, n) < 0 <==> exists i ::
      0 <= i <= |a| && i < |b| && i < n && a[..i] == b[..i] && (i == |a| || a[i] < b[i])
  {
    var s, t := Cut(a, n), Cut(b, n);
    CmpMeans(s, t);
    hide Cmp;
    if i :| 0 <= i <= |s| && i < |t| && s[..i] == t[..i] && (i == |s| || s[i] < t[i]) {
      assert a[..i] == s[..i] && b[..i] == t[..i];
    }
    if i :| 0 <= i <= |a| && i < |b| && i < n && a[..i] == b[..i] && (i == |a| || a[i] < b[i]) {
      assert a[..i] == s[..i] && b[..i] == t[..i];
    }
  }

  lemma {:induction false} CmpEqual(a: string, b: string)
    ensures Cmp(a, b) == 0 <==> a == b
  {
    if a == [] || b == [] || a[0] != b[0] {
    } else {
      CmpEqual(a[1..], b[1..]);
      assert a == [a[0]] + a[1..] && b == [b[0]] + b[1..];
    }
  }

  lemma {:induction false} CmpFlip(a: string, b: string)
    ensures Cmp(b, a) == -Cmp(a, b)
  {
    if a == [] || b == [] || a[0] != b[0] {
    } else {
      CmpFlip(a[1..], b[1..]);
    }
  }

  lemma {:induction false} CmpTransitive(a: string, b: string, c: string)
    requires Cmp(a, b) < 0 && Cmp(b, c) < 0
    ensures Cmp(a, c) < 0
  {
    if a == [] || b == [] || c == [] || a[0] != b[0] || b[0] != c[0] {
    } else {
      CmpTransitive(a[1..], b[1..], c[1..]);
    }
  }

  // ---------- printf("%u") and printf("%d") ----------

  function Digit(d: nat): char requires d < 10 { "0123456789"[d] }

  /** `%u`. */
  function Decimal(n: nat): (s: string)
    ensures s != [] && forall i :: 0 <= i < |s| ==> '0' <= s[i] <= '9'
  {
    if n < 10 then [Digit(n)] else Decimal(n / 10) + [Digit(n % 10)]
  }

  /** `%d`. */
  function SignedDecimal(i: int): string { if i < 0 then "-" + Decimal(-i) else Decimal(i) }

  /** The 32 bits of an unsigned number read as a signed one. */
  function ToInt32(u: nat): int requires u < 0x1_0000_0000 {
    if u < 0x8000_0000 then u else u - 0x1_0000_0000
  }

  /** The number that a string of digits stands for. */
  function Value(s: string): int {
    if s == [] then 0 else 10 * Value(s[..|s| - 1]) + (s[|s| - 1] as int - '0' as int)
  }

  /** `%u` prints the number in decimal, without leading zeros. */
  lemma {:induction false} DecimalValue(n: nat)
    ensures Value(Decimal(n)) == n && (n > 0 ==> Decimal(n)[0] != '0')
  {
    if n < 10 {
      assert Decimal(n)[..0] == [];
      DigitValue(n);
    } else {
      DecimalValue(n / 10);
      DigitValue(n % 10);
      var s := Decimal(n / 10);
      assert Decimal(n)[..|s|] == s;
    }
  }

  lemma {:induction false} DigitValue(d: nat)
    requires d < 10
    ensures Digit(d) as int == '0' as int + d
  {
  }

  lemma {:induction false} DigitInjective(d: nat, e: nat)
    requires d < 10 && e < 10 && Digit(d) == Digit(e)
    ensures d == e
  {
  }

  lemma {:induction false} DecimalLast(n: nat)
    ensures var s := Decimal(n);
      s[|s| - 1] == Digit(n % 10) && s[..|s| - 1] == (if n < 10 then "" else Decimal(n / 10))
  {
    hide Digit;
  }

  lemma {:induction false} DecimalInjective(m: nat, n: nat)
    requires Decimal(m) == Decimal(n)
    ensures m == n
  {
    DecimalLast(m);
    DecimalLast(n);
    DigitInjective(m % 10, n % 10);
    if m < 10 || n < 10 {
    } else {
      DecimalInjective(m / 10, n / 10);
    }
  }

  lemma {:induction false} SignedDecimalInjective(i: int, j: int)
    requires SignedDecimal(i) == SignedDecimal(j)
    ensures i == j
  {
    assert SignedDecimal(i)[0] == '-' <==> i < 0;
    assert SignedDecimal(j)[0] == '-' <==> j < 0;
    if i < 0 {
      assert SignedDecimal(i)[1..] == Decimal(-i) && SignedDecimal(j)[1..] == Decimal(-j);
      DecimalInjective(-i, -j);
    } else {
      DecimalInjective(i, j);
    }
  }

  /** `%u` prints at most ten characters for a 32-bit number. */
  lemma {:induction false} DecimalLength(n: nat, k: nat, bound: nat)
    requires k > 0 && n < bound && bound == Power10(k)
    ensures |Decimal(n)| <= k
  {
    if n < 10 {
    } else {
      assert k > 1;
      DecimalLength(n / 10, k - 1, Power10(k - 1));
    }
  }

  function Power10(k: nat): nat { if k == 0 then 1 else 10 * Power10(k - 1) }
}
