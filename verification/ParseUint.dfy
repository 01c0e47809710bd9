/**
 parseUintBytes and cutoff64: an unsigned integer parser that detects overflow
 before and after each 64-bit operation.
 */
module ParseUint {
  import opened Numerals
  import opened Results

  const TWO64: int := 0x1_0000_0000_0000_0000

  type Byte = b: int | 0 <= b < 256

  /** The unsigned 64-bit result of an operation. */
  function Wrap(x: nat): nat {
    x % TWO64
  }

  datatype ParseError = Syntax | Range | InvalidBase

  datatype Parsed = Parsed(n: nat, error: Option<ParseError>)

  function Power2(k: nat): (p: nat)
    ensures p >= 1
  {
    if k == 0 then 1 else 2 * Power2(k - 1)
  }

  /** 1<<uint(bitSize) - 1 in 64 bits: a shift by 64 or more leaves 0, and 0 - 1 is all ones. */
  function MaxVal(bitSize: int): nat {
    if bitSize == 0 then TWO64 - 1
    else if 0 < bitSize < 64 then Power2(bitSize) - 1
    else TWO64 - 1
  }

  lemma {:induction false} Power2Less(k: nat, n: nat)
    requires k <= n
    ensures Power2(k) <= Power2(n)
    decreases n
  {
    if k < n {
      Power2Less(k, n - 1);
    }
  }

  lemma MaxValFits(bitSize: int)
    ensures MaxVal(bitSize) < TWO64
    ensures 1 <= bitSize <= 64 ==> MaxVal(bitSize) == Power2(bitSize) - 1
  {
    Power2Of64();
    if 0 < bitSize < 64 {
      Power2Less(bitSize, 64);
    }
  }

  lemma Power2Of16()
    ensures Power2(16) == 0x1_0000
  {
    Power2Split(8, 8);
  }

  lemma Power2Of64()
    ensures Power2(64) == TWO64
  {
    Power2Of16();
    Power2Split(16, 16);
    Power2Split(32, 32);
  }

  lemma {:induction false} Power2Split(a: nat, b: nat)
    ensures Power2(a + b) == Power2(a) * Power2(b)
  {
    if b > 0 {
      Power2Split(a, b - 1);
    }
  }

  /** cutoff64. */
  function Cutoff64(base: int): nat {
    if base < 2 then 0 else (TWO64 - 1) / base + 1
  }

  /** The cutoff is the first n whose product with the base no longer fits 64 bits. */
  lemma CutoffExact(base: int, n: nat)
    requires base >= 2
    ensures n >= Cutoff64(base) <==> n * base >= TWO64
  {
    var q, r := (TWO64 - 1) / base, (TWO64 - 1) % base;
    Divide(TWO64 - 1, base);
    if n >= q + 1 {
      assert n * base >= (q + 1) * base == q * base + base;
    } else {
      assert n * base <= q * base;
    }
  }

  // ------------------------------------------------------------------ digits

  /** The digit a byte stands for, 255 when it stands for none. */
  function DigitOf(d: Byte): (v: nat)
    ensures v < 36 || v == 255
  {
    if '0' as int <= d <= '9' as int then d - '0' as int
    else if 'a' as int <= d <= 'z' as int then d - 'a' as int + 10
    else if 'A' as int <= d <= 'Z' as int then d - 'A' as int + 10
    else 255
  }

  predicate IsDigit(d: Byte, base: int) {
    DigitOf(d) < base
  }

  function DigitSeq(s: seq<Byte>): (ds: seq<nat>)
    ensures |ds| == |s| && forall i :: 0 <= i < |s| ==> ds[i] == DigitOf(s[i])
  {
    seq(|s|, i requires 0 <= i < |s| => DigitOf(s[i]))
  }

  /** The value of the digits of `s` in unbounded arithmetic. */
  ghost function NumeralValue(s: seq<Byte>, base: nat): nat {
    Value(DigitSeq(s), base)
  }

  // ----------------------------------------------------------- specification

  /** The base and the digits that the base argument 0 selects from the prefix. */
  ghost function Effective(s: seq<Byte>, base: int): (int, seq<Byte>)
    requires s != []
  {
    if base != 0 then (base, s)
    else if s[0] == '0' as int && |s| > 1 && (s[1] == 'x' as int || s[1] == 'X' as int) then (16, s[2..])
    else if s[0] == '0' as int then (8, s)
    else (10, s)
  }

  /** All bytes before index `k` are digits and their value fits. */
  ghost predicate GoodPrefix(s: seq<Byte>, base: nat, max: nat, k: nat) {
    && k <= |s|
    && (forall i :: 0 <= i < k ==> IsDigit(s[i], base))
    && NumeralValue(s[..k], base) <= max
  }

  /** The outcome on digits `s`, read left to right: the first obstacle decides. */
  ghost predicate Scanned(s: seq<Byte>, base: nat, max: nat, r: Parsed) {
    || (GoodPrefix(s, base, max, |s|) && r == Parsed(NumeralValue(s, base), None))
    || (exists k: nat :: k < |s| && GoodPrefix(s, base, max, k) && !IsDigit(s[k], base) && r == Parsed(0, Some(Syntax)))
    || (exists k: nat :: k < |s| && GoodPrefix(s, base, max, k) && IsDigit(s[k], base)
                         && NumeralValue(s[..k + 1], base) > max && r == Parsed(TWO64 - 1, Some(Range)))
  }

  ghost predicate ParseOutcome(s: seq<Byte>, base: int, bitSize: int, r: Parsed) {
    if s == [] then r == Parsed(0, Some(Syntax))
    else if base != 0 && !(2 <= base <= 36) then r == Parsed(0, Some(InvalidBase))
    else
      var (b, digits) := Effective(s, base);
      if digits == [] then r == Parsed(0, Some(Syntax)) else Scanned(digits, b, MaxVal(bitSize), r)
  }

  lemma PrefixValue(s: seq<Byte>, k: nat, base: nat)
    requires k < |s|
    ensures NumeralValue(s[..k + 1], base) == NumeralValue(s[..k], base) * base + DigitOf(s[k])
  {
    Extend(DigitSeq(s), k, base);
    assert DigitSeq(s)[..k] == DigitSeq(s[..k]);
    assert DigitSeq(s)[..k + 1] == DigitSeq(s[..k + 1]);
  }

  // ---------------------------------------------------------------- the code

  /** The two range tests around one digit are exact: neither the product nor the sum escapes them. */
  lemma RangeTestsExact(n: nat, v: nat, base: nat, maxVal: nat)
    requires 2 <= base && v < base && maxVal < TWO64
    ensures n >= Cutoff64(base) ==> n * base + v > maxVal
    ensures n < Cutoff64(base) ==> Wrap(n * base) == n * base
    ensures n < Cutoff64(base) && base <= 36 ==>
      var n1 := Wrap(n * base + v);
      && ((n1 < n * base || n1 > maxVal) <==> n * base + v > maxVal)
      && (n * base + v <= maxVal ==> n1 == n * base + v)
  {
    var product := n * base;
    CutoffExact(base, n);
    if product < TWO64 && base <= 36 {
      WrapSmall(product);
      if product + v < TWO64 {
        WrapSmall(product + v);
      } else {
        WrapOnce(product + v);
      }
    }
  }

  lemma WrapSmall(x: nat)
    requires x < TWO64
    ensures Wrap(x) == x
  {
  }

  lemma WrapOnce(x: nat)
    requires TWO64 <= x < 2 * TWO64
    ensures Wrap(x) == x - TWO64
  {
  }

  /** One more digit in 64-bit arithmetic: None when either range test fires. */
  method AppendDigit(n: nat, v: nat, base: nat, cutoff: nat, maxVal: nat) returns (r: Option<nat>)
    requires 2 <= base <= 36 && v < base && maxVal < TWO64 && cutoff == Cutoff64(base)
    ensures r == if n * base + v <= maxVal then Some(n * base + v) else None
  {
    RangeTestsExact(n, v, base, maxVal);
    if n >= cutoff {
      return None;
    }
    var product := Wrap(n * base);
    var n1 := Wrap(product + v);
    if n1 < product || n1 > maxVal {
      return None;
    }
    return Some(n1);
  }

  /** The digit loop. */
  method Scan(s: seq<Byte>, base: nat, maxVal: nat) returns (r: Parsed)
    requires 2 <= base <= 36 && maxVal < TWO64
    ensures Scanned(s, base, maxVal, r)
  {
    var n: nat := 0;
    var cutoff := Cutoff64(base);
    var i := 0;
    while i < |s|
      invariant GoodPrefix(s, base, maxVal, i) && n == NumeralValue(s[..i], base)
    {
      PrefixValue(s, i, base);
      var v := DigitOf(s[i]);
      if v >= base {
        assert !IsDigit(s[i], base);
        return Parsed(0, Some(Syntax));
      }
      assert IsDigit(s[i], base);
      var next := AppendDigit(n, v, base, cutoff, maxVal);
      if next.None? {
        return Parsed(TWO64 - 1, Some(Range));
      }
      n := next.value;
      i := i + 1;
    }
    assert s[..|s|] == s;
    return Parsed(n, None);
  }

  method ParseUintBytes(s0: seq<Byte>, base0: int, bitSize: int) returns (r: Parsed)
    ensures ParseOutcome(s0, base0, bitSize, r)
  {
    var s, base := s0, base0;
    if |s| < 1 {
      return Parsed(0, Some(Syntax));
    } else if 2 <= base <= 36 {
    } else if base == 0 {
      if s[0] == '0' as int && |s| > 1 && (s[1] == 'x' as int || s[1] == 'X' as int) {
        base := 16;
        s := s[2..];
        if |s| < 1 {
          return Parsed(0, Some(Syntax));
        }
      } else if s[0] == '0' as int {
        base := 8;
      } else {
        base := 10;
      }
    } else {
      return Parsed(0, Some(InvalidBase));
    }
    MaxValFits(bitSize);
    r := Scan(s, base, MaxVal(bitSize));
  }

  // -------------------------------------------------------------- properties

  /** A well-formed numeral is parsed to its exact value when that fits, and to the range error otherwise. */
  lemma WellFormedNumeral(s: seq<Byte>, base: int, bitSize: int, r: Parsed)
    requires s != [] && 2 <= base <= 36 && 1 <= bitSize <= 64
    requires forall i :: 0 <= i < |s| ==> IsDigit(s[i], base)
    requires ParseOutcome(s, base, bitSize, r)
    ensures NumeralValue(s, base) <= Power2(bitSize) - 1 ==> r == Parsed(NumeralValue(s, base), None)
    ensures NumeralValue(s, base) > Power2(bitSize) - 1 ==> r == Parsed(TWO64 - 1, Some(Range))
  {
    MaxValFits(bitSize);
    assert s[..|s|] == s;
    var k := Obstacle(s, base, MaxVal(bitSize), r);
    if NumeralValue(s, base) <= MaxVal(bitSize) && k < |s| {
      EarlierPrefixGood(s, base, MaxVal(bitSize), k + 1, |s|);
    }
  }

  /** Two outcomes the specification allows are the same: it determines the result on every input. */
  lemma OutcomeUnique(s: seq<Byte>, base: int, bitSize: int, r: Parsed, r': Parsed)
    requires ParseOutcome(s, base, bitSize, r) && ParseOutcome(s, base, bitSize, r')
    ensures r == r'
  {
    if s != [] && (base == 0 || 2 <= base <= 36) {
      var (b, digits) := Effective(s, base);
      if digits != [] {
        ScannedUnique(digits, b, MaxVal(bitSize), r, r');
      }
    }
  }

  lemma ScannedUnique(s: seq<Byte>, base: nat, max: nat, r: Parsed, r': Parsed)
    requires base >= 2 && Scanned(s, base, max, r) && Scanned(s, base, max, r')
    ensures r == r'
  {
    var k := Obstacle(s, base, max, r);
    var k' := Obstacle(s, base, max, r');
    assert s[..|s|] == s;
    if k < k' {
      EarlierPrefixGood(s, base, max, k + 1, k');
    } else if k' < k {
      EarlierPrefixGood(s, base, max, k' + 1, k);
    }
  }

  /** Where the scan stopped. */
  lemma Obstacle(s: seq<Byte>, base: nat, max: nat, r: Parsed) returns (k: nat)
    requires Scanned(s, base, max, r)
    ensures GoodPrefix(s, base, max, k)
    ensures k == |s| ==> r == Parsed(NumeralValue(s, base), None)
    ensures k < |s| ==> !GoodPrefix(s, base, max, k + 1)
    ensures k < |s| ==> r == if IsDigit(s[k], base) then Parsed(TWO64 - 1, Some(Range)) else Parsed(0, Some(Syntax))
  {
    if r.error == None {
      k := |s|;
    } else if r.error == Some(Syntax) {
      k :| k < |s| && GoodPrefix(s, base, max, k) && !IsDigit(s[k], base);
    } else {
      k :| k < |s| && GoodPrefix(s, base, max, k) && IsDigit(s[k], base) && NumeralValue(s[..k + 1], base) > max;
    }
  }

  lemma EarlierPrefixGood(s: seq<Byte>, base: nat, max: nat, k: nat, k': nat)
    requires base >= 2 && k <= k' && GoodPrefix(s, base, max, k')
    ensures GoodPrefix(s, base, max, k)
  {
    PrefixAtMost(DigitSeq(s), k, k', base);
    assert DigitSeq(s)[..k] == DigitSeq(s[..k]) && DigitSeq(s)[..k'] == DigitSeq(s[..k']);
  }

  /** The digit bytes of a value, lower case. */
  function Format(n: nat, base: nat): (s: seq<Byte>)
    requires 2 <= base <= 36
  {
    if n == 0 then ['0' as int]
    else
      var ds := ToDigits(n, base);
      seq(|ds|, i requires 0 <= i < |ds| => if ds[i] < 10 then '0' as int + ds[i] else 'a' as int + ds[i] - 10)
  }

  lemma FormatDigits(n: nat, base: nat)
    requires 2 <= base <= 36
    ensures DigitSeq(Format(n, base)) == if n == 0 then [0] else ToDigits(n, base)
  {
  }

  lemma FormatIsNumeral(n: nat, base: nat)
    requires 2 <= base <= 36
    ensures Format(n, base) != [] && NumeralValue(Format(n, base), base) == n
    ensures forall i :: 0 <= i < |Format(n, base)| ==> IsDigit(Format(n, base)[i], base)
  {
    FormatDigits(n, base);
    if n == 0 {
      assert [0][..0] == [];
      assert Value([0], base) == 0;
    } else {
      ValueOfDigits(n, base);
      forall i | 0 <= i < |Format(n, base)| ensures IsDigit(Format(n, base)[i], base) {
        assert DigitSeq(Format(n, base))[i] < base;
      }
    }
  }

  /** Parsing undoes formatting, for every value of the requested width. */
  lemma ParseFormat(n: nat, base: int, bitSize: int, r: Parsed)
    requires 2 <= base <= 36 && 1 <= bitSize <= 64 && n < Power2(bitSize)
    requires ParseOutcome(Format(n, base), base, bitSize, r)
    ensures r == Parsed(n, None)
  {
    FormatIsNumeral(n, base);
    WellFormedNumeral(Format(n, base), base, bitSize, r);
  }
}
