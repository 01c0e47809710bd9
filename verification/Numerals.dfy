/** Positional notation, most significant digit first: the value of a numeral and the numeral of a value. */
module Numerals {

  ghost predicate Digits(ds: seq<nat>, base: nat) {
    forall i :: 0 <= i < |ds| ==> ds[i] < base
  }

  function Value(ds: seq<nat>, base: nat): nat {
    if ds == [] then 0 else Value(ds[..|ds| - 1], base) * base + ds[|ds| - 1]
  }

  /** The numeral of `n` without leading zeros; zero has the empty numeral. */
  function ToDigits(n: nat, base: nat): (ds: seq<nat>)
    requires base >= 2
    ensures Digits(ds, base)
    ensures ds != [] ==> ds[0] != 0
    ensures ds == [] <==> n == 0
  {
    if n == 0 then [] else ToDigits(n / base, base) + [n % base]
  }

  lemma {:induction false} ValueOfDigits(n: nat, base: nat)
    requires base >= 2
    ensures Value(ToDigits(n, base), base) == n
  {
    if n != 0 {
      ValueOfDigits(n / base, base);
      Divide(n, base);
      var ds := ToDigits(n, base);
      assert ds[..|ds| - 1] == ToDigits(n / base, base);
    }
  }

  lemma Divide(n: nat, base: nat)
    requires base >= 1
    ensures n / base * base + n % base == n
  {
  }

  lemma AtLeast(d: nat, base: nat)
    requires d >= 1
    ensures d * base >= base
  {
  }

  lemma DivMod(q: nat, r: nat, base: nat)
    requires r < base
    ensures (q * base + r) / base == q && (q * base + r) % base == r
  {
    var n := q * base + r;
    var p := n / base;
    Divide(n, base);
    assert (p - q) * base == p * base - q * base;
    assert (q - p) * base == q * base - p * base;
    if p > q {
      AtLeast(p - q, base);
    } else if p < q {
      AtLeast(q - p, base);
    }
  }

  lemma {:induction false} LeadingDigit(ds: seq<nat>, base: nat)
    requires ds != [] && ds[0] != 0 && base >= 1
    ensures Value(ds, base) >= 1
  {
    if |ds| > 1 {
      LeadingDigit(ds[..|ds| - 1], base);
    }
  }

  lemma {:induction false} DigitsOfValue(ds: seq<nat>, base: nat)
    requires base >= 2 && Digits(ds, base) && (ds != [] ==> ds[0] != 0)
    ensures ToDigits(Value(ds, base), base) == ds
  {
    if ds != [] {
      var front := ds[..|ds| - 1];
      DigitsOfValue(front, base);
      DivMod(Value(front, base), ds[|ds| - 1], base);
      LeadingDigit(ds, base);
    }
  }

  lemma Extend(ds: seq<nat>, i: nat, base: nat)
    requires i < |ds|
    ensures Value(ds[..i + 1], base) == Value(ds[..i], base) * base + ds[i]
  {
    assert ds[..i + 1][..i] == ds[..i];
  }

  lemma Grows(v: nat, d: nat, base: nat)
    requires base >= 1
    ensures v <= v * base + d
  {
    assert v * base == v * (base - 1) + v;
  }

  /** A longer prefix of a numeral never has a smaller value. */
  lemma {:induction false} PrefixAtMost(ds: seq<nat>, i: nat, j: nat, base: nat)
    requires i <= j <= |ds| && base >= 1
    ensures Value(ds[..i], base) <= Value(ds[..j], base)
    decreases j
  {
    if i < j {
      PrefixAtMost(ds, i, j - 1, base);
      Extend(ds, j - 1, base);
      Grows(Value(ds[..j - 1], base), ds[j - 1], base);
    }
  }

  // ------------------------------------------------------------ decimal text

  /** strconv.Itoa of a natural number. */
  function Decimal(n: nat): string {
    if n == 0 then "0"
    else
      var ds := ToDigits(n, 10);
      seq(|ds|, i requires 0 <= i < |ds| => (ds[i] + '0' as int) as char)
  }

  lemma DecimalChars(n: nat)
    ensures Decimal(n) != "" && forall i :: 0 <= i < |Decimal(n)| ==> '0' <= Decimal(n)[i] <= '9'
  {
  }

  lemma DecimalLead(n: nat)
    ensures n == 0 <==> Decimal(n)[0] == '0'
  {
  }

  lemma DecimalInjective(m: nat, n: nat)
    requires Decimal(m) == Decimal(n)
    ensures m == n
  {
    var a, b := ToDigits(m, 10), ToDigits(n, 10);
    DecimalLead(m);
    DecimalLead(n);
    if m != 0 && n != 0 {
      forall i | 0 <= i < |a| ensures a[i] == b[i] {
        assert Decimal(m)[i] == Decimal(n)[i];
      }
      assert a == b;
      ValueOfDigits(m, 10);
      ValueOfDigits(n, 10);
    }
  }
}
