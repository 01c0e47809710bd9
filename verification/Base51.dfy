/**
 Encode and Decode of the base52 package, in 64-bit signed arithmetic. They are stated over any
 51-character alphabet; SpaceIsAlphabet shows that the package's own one qualifies.
 */
module Base51 {
  import opened Numerals
  import opened Orders
  import opened Results

  const BASE: nat := 51
  const TWO63: int := 0x8000_0000_0000_0000
  const TWO64: int := 0x1_0000_0000_0000_0000

  type Int64 = i: int | -TWO63 <= i < TWO63

  datatype DecodeError = MultiByteCharacter | InvalidCharacter

  /** Two's complement truncation of an integer to 64 bits. */
  function Truncate(x: int): Int64 {
    var m := x % TWO64;
    if m < TWO63 then m else m - TWO64
  }

  // ---------------------------------------------------------------- alphabet

  ghost predicate Alphabet(space: string) {
    && |space| == BASE && space[0] == '0' && Distinct(space)
    && forall i :: 0 <= i < |space| ==> (space[i] as int) < 0x80
  }

  /** Digits, then lower case, then upper case. */
  function Rank(c: char): int {
    if 'A' <= c <= 'Z' then 0x80 + c as int else c as int
  }

  predicate AscendingFrom(s: string, k: nat)
    requires k <= |s|
    decreases |s| - k
  {
    if k == |s| then true
    else (s[k] as int) < 0x80 && (k + 1 < |s| ==> Rank(s[k]) < Rank(s[k + 1])) && AscendingFrom(s, k + 1)
  }

  ghost predicate Ascending(s: string) {
    && (forall i :: 0 <= i < |s| ==> (s[i] as int) < 0x80)
    && (forall i, j :: 0 <= i < j < |s| ==> Rank(s[i]) < Rank(s[j]))
  }

  lemma {:induction false} AscendingAt(s: string, k: nat, i: nat, j: nat)
    requires k <= i <= j < |s| && AscendingFrom(s, k)
    ensures (s[j] as int) < 0x80
    ensures i < j ==> Rank(s[i]) < Rank(s[j])
    decreases |s| - k
  {
    if k < i {
      AscendingAt(s, k + 1, i, j);
    } else if i < j {
      AscendingAt(s, k + 1, i + 1, j);
    }
  }

  lemma AscendingAll(s: string)
    requires AscendingFrom(s, 0)
    ensures Ascending(s)
  {
    forall i, j | 0 <= i <= j < |s| ensures (s[j] as int) < 0x80 && (i < j ==> Rank(s[i]) < Rank(s[j])) {
      AscendingAt(s, 0, i, j);
    }
  }

  lemma AscendingJoin(a: string, b: string)
    requires Ascending(a) && Ascending(b) && a != [] && b != []
    requires Rank(a[|a| - 1]) < Rank(b[0])
    ensures Ascending(a + b)
  {
  }

  /** The characters of the package, in five stretches. */
  function Space(): string {
    "0123456789" + "bcdfghjkmn" + "pqrstvwxyz" + "BCDFGHJKLM" + "NPQRSTVWXYZ"
  }

  lemma LowerAscending()
    ensures Ascending("bcdfghjkmn") && Ascending("pqrstvwxyz")
  {
    AscendingAll("bcdfghjkmn");
    AscendingAll("pqrstvwxyz");
  }

  lemma UpperAscending()
    ensures Ascending("BCDFGHJKLM") && Ascending("NPQRSTVWXYZ")
  {
    AscendingAll("BCDFGHJKLM");
    AscendingAll("NPQRSTVWXYZ");
  }

  lemma SpaceAscending()
    ensures Ascending(Space())
  {
    var a, b, c, d, e := "0123456789", "bcdfghjkmn", "pqrstvwxyz", "BCDFGHJKLM", "NPQRSTVWXYZ";
    AscendingAll("0123456789");
    LowerAscending();
    UpperAscending();
    AscendingJoin(a, b);
    AscendingJoin(a + b, c);
    AscendingJoin(a + b + c, d);
    AscendingJoin(a + b + c + d, e);
  }

  lemma SpaceIsAlphabet()
    ensures Alphabet(Space())
  {
    SpaceAscending();
  }

  /** strings.IndexByte(space, c). */
  function IndexOf(space: string, c: char): (i: int)
    ensures i == -1 || (0 <= i < |space| && space[i] == c)
    ensures i == -1 <==> c !in space
  {
    if space == "" then -1
    else
      assert space == [space[0]] + space[1..];
      if space[0] == c then 0
      else
        var i := IndexOf(space[1..], c);
        if i == -1 then -1 else i + 1
  }

  predicate Within(s: string, space: string) {
    forall i :: 0 <= i < |s| ==> s[i] in space
  }

  ghost function DigitsOf(s: string, space: string): (ds: seq<nat>)
    requires Within(s, space)
    ensures Digits(ds, |space|) && |ds| == |s|
  {
    seq(|s|, i requires 0 <= i < |s| => IndexOf(space, s[i]) as nat)
  }

  ghost function Spell(ds: seq<nat>, space: string): (s: string)
    requires Digits(ds, |space|)
    ensures |s| == |ds|
  {
    seq(|ds|, i requires 0 <= i < |ds| => space[ds[i]])
  }

  lemma SpellDigits(s: string, space: string)
    requires Within(s, space)
    ensures Spell(DigitsOf(s, space), space) == s
  {
  }

  lemma DigitsSpell(ds: seq<nat>, space: string)
    requires Digits(ds, |space|) && Distinct(space)
    ensures Within(Spell(ds, space), space) && DigitsOf(Spell(ds, space), space) == ds
  {
  }

  // ----------------------------------------------------------- specification

  ghost function Encoded(id: Int64, space: string): string
    requires |space| == BASE
  {
    if id <= 0 then "" else Spell(ToDigits(id, BASE), space)
  }

  /** A string is a sequence of bytes; `s[k]` lies between the two. */
  predicate ByteBetween(s: string, k: nat, low: int, high: int) {
    k < |s| && low <= s[k] as int <= high
  }

  predicate Continues(s: string, k: nat) {
    ByteBetween(s, k, 0x80, 0xBF)
  }

  /** How many bytes the first rune takes: one for ASCII, and one for a byte that begins no valid sequence. */
  function RuneWidth(s: string): (n: nat)
    requires s != ""
    ensures 1 <= n <= |s|
    ensures s[0] as int < 0x80 ==> n == 1
  {
    var b := s[0] as int;
    if 0xC2 <= b <= 0xDF && Continues(s, 1) then 2
    else if (if b == 0xE0 then ByteBetween(s, 1, 0xA0, 0xBF)
             else if b == 0xED then ByteBetween(s, 1, 0x80, 0x9F)
             else 0xE1 <= b <= 0xEF && Continues(s, 1)) && Continues(s, 2) then 3
    else if (if b == 0xF0 then ByteBetween(s, 1, 0x90, 0xBF)
             else if b == 0xF4 then ByteBetween(s, 1, 0x80, 0x8F)
             else 0xF1 <= b <= 0xF3 && Continues(s, 1)) && Continues(s, 2) && Continues(s, 3) then 4
    else 1
  }

  function RuneCount(s: string): (n: nat)
    ensures n <= |s|
  {
    if s == "" then 0 else 1 + RuneCount(s[RuneWidth(s)..])
  }

  /** The string has fewer runes than bytes: it holds a valid sequence of several bytes. */
  predicate MultiByte(s: string) {
    RuneCount(s) != |s|
  }

  lemma {:induction false} AsciiIsSingleByte(s: string)
    requires forall i :: 0 <= i < |s| ==> s[i] as int < 0x80
    ensures !MultiByte(s)
  {
    if s != "" {
      AsciiIsSingleByte(s[1..]);
    }
  }

  /** A byte that begins no rune is one rune of its own, so it gets the other error. */
  lemma StrayByte(c: char, space: string)
    requires Alphabet(space) && 0x80 <= c as int < 0xC2
    ensures Decoded([c], space) == Err(InvalidCharacter)
  {
    assert [c][1..] == "";
    assert [c][0] !in space;
  }

  ghost function Decoded(s: string, space: string): Result<Int64, DecodeError> {
    if MultiByte(s) then Err(MultiByteCharacter)
    else if !Within(s, space) then Err(InvalidCharacter)
    else Ok(Truncate(Value(DigitsOf(s, space), BASE)))
  }

  // ---------------------------------------------------------------- the code

  method ReverseInPlace(a: array<char>)
    modifies a
    ensures forall k :: 0 <= k < a.Length ==> a[k] == old(a[a.Length - 1 - k])
  {
    var i, j := 0, a.Length - 1;
    while i < j
      invariant 0 <= i && j == a.Length - 1 - i && i <= j + 1
      invariant forall k :: 0 <= k < i || j < k < a.Length ==> a[k] == old(a[a.Length - 1 - k])
      invariant forall k :: i <= k <= j ==> a[k] == old(a[k])
    {
      a[i], a[j] := a[j], a[i];
      i, j := i + 1, j - 1;
    }
  }

  lemma LastDigit(id: nat, all: seq<nat>, m: nat)
    requires id > 0 && m <= |all| && ToDigits(id, BASE) == all[..m]
    ensures m > 0 && ToDigits(id / BASE, BASE) == all[..m - 1] && id % BASE == all[m - 1]
  {
    assert all[..m][..m - 1] == all[..m - 1] && all[..m][m - 1] == all[m - 1];
  }

  method Encode(id0: Int64, space: string) returns (s: string)
    requires |space| == BASE
    ensures s == Encoded(id0, space)
  {
    var id: nat := if id0 > 0 then id0 else 0;
    ghost var all := ToDigits(id, BASE);
    var short: seq<char> := [];
    while id > 0
      invariant |short| <= |all| && ToDigits(id, BASE) == all[..|all| - |short|]
      invariant forall k :: 0 <= k < |short| ==> short[k] == space[all[|all| - 1 - k]]
    {
      var i := id % BASE;
      LastDigit(id, all, |all| - |short|);
      short := short + [space[i]];
      id := id / BASE;
    }
    var buffer := new char[|short|](k requires 0 <= k < |short| => short[k]);
    ReverseInPlace(buffer);
    s := buffer[..];
    assert s == Spell(all, space);
  }

  /** Truncating after every step equals truncating once. */
  lemma TruncateStep(x: int, d: int)
    ensures Truncate(Truncate(x) * BASE + d) == Truncate(x * BASE + d)
  {
  }

  lemma DigitsExtend(s: string, i: nat, space: string)
    requires i < |s| && Within(s[..i], space) && s[i] in space
    ensures Within(s[..i + 1], space)
    ensures Value(DigitsOf(s[..i + 1], space), BASE) ==
            Value(DigitsOf(s[..i], space), BASE) * BASE + IndexOf(space, s[i])
  {
    assert s[..i + 1] == s[..i] + [s[i]];
    assert DigitsOf(s[..i + 1], space)[..i] == DigitsOf(s[..i], space);
  }

  method Decode(encoded: string, space: string) returns (r: Result<Int64, DecodeError>)
    ensures r == Decoded(encoded, space)
  {
    if MultiByte(encoded) {
      return Err(MultiByteCharacter);
    }
    var id: Int64 := 0;
    var i := 0;
    while i < |encoded|
      invariant 0 <= i <= |encoded| && Within(encoded[..i], space)
      invariant id == Truncate(Value(DigitsOf(encoded[..i], space), BASE))
    {
      var idx := IndexOf(space, encoded[i]);
      if idx < 0 {
        return Err(InvalidCharacter);
      }
      DigitsExtend(encoded, i, space);
      TruncateStep(Value(DigitsOf(encoded[..i], space), BASE), idx);
      id := Truncate(id * BASE + idx);
      i := i + 1;
    }
    assert encoded[..|encoded|] == encoded;
    return Ok(id);
  }

  // -------------------------------------------------------------- properties

  /** No prefix of a numeral that fits 63 bits overflows while it is decoded. */
  lemma NoIntermediateOverflow(s: string, i: nat, space: string)
    requires Within(s, space) && i <= |s| && Value(DigitsOf(s, space), BASE) < TWO63
    ensures Truncate(Value(DigitsOf(s[..i], space), BASE)) == Value(DigitsOf(s[..i], space), BASE)
  {
    PrefixAtMost(DigitsOf(s, space), i, |s|, BASE);
    assert DigitsOf(s, space)[..i] == DigitsOf(s[..i], space);
    assert DigitsOf(s, space)[..|s|] == DigitsOf(s, space);
  }

  lemma TruncateSmall(x: int)
    requires 0 <= x < TWO63
    ensures Truncate(x) == x
  {
  }

  lemma EncodedIsSpelt(id: Int64, space: string)
    requires |space| == BASE && id >= 0
    ensures Encoded(id, space) == Spell(ToDigits(id, BASE), space)
  {
  }

  lemma SpellSingleByte(ds: seq<nat>, space: string)
    requires Alphabet(space) && Digits(ds, BASE)
    ensures !MultiByte(Spell(ds, space))
  {
    AsciiIsSingleByte(Spell(ds, space));
  }

  lemma DecodeEncode(id: Int64, space: string)
    requires Alphabet(space) && id >= 0
    ensures Decoded(Encoded(id, space), space) == Ok(id)
  {
    var ds := ToDigits(id, BASE);
    DigitsSpell(ds, space);
    SpellSingleByte(ds, space);
    ValueOfDigits(id, BASE);
    EncodedIsSpelt(id, space);
    TruncateSmall(id);
  }

  lemma NoLeadingZero(s: string, space: string)
    requires Alphabet(space) && Within(s, space) && (s != "" ==> s[0] != '0')
    ensures s != "" ==> DigitsOf(s, space)[0] != 0
  {
  }

  lemma CanonicalDecodes(s: string, space: string)
    requires Alphabet(space) && Decoded(s, space).Ok?
    requires (s != "" ==> s[0] != '0') && Value(DigitsOf(s, space), BASE) < TWO63
    ensures Encoded(Decoded(s, space).value, space) == s
  {
    var ds := DigitsOf(s, space);
    SpellDigits(s, space);
    NoLeadingZero(s, space);
    DigitsOfValue(ds, BASE);
    TruncateSmall(Value(ds, BASE));
    EncodedIsSpelt(Value(ds, BASE), space);
  }

  lemma EncodedIsCanonical(s: string, space: string)
    requires Alphabet(space) && Decoded(s, space).Ok?
    requires Encoded(Decoded(s, space).value, space) == s
    ensures (s != "" ==> s[0] != '0') && Value(DigitsOf(s, space), BASE) < TWO63
  {
    var id: nat := if Decoded(s, space).value > 0 then Decoded(s, space).value else 0;
    DigitsSpell(ToDigits(id, BASE), space);
    assert DigitsOf(s, space) == ToDigits(id, BASE);
    ValueOfDigits(id, BASE);
  }

  /** Decoding loses nothing exactly on numerals without a leading zero that fit 63 bits. */
  lemma EncodeDecode(s: string, space: string)
    requires Alphabet(space) && Decoded(s, space).Ok?
    ensures Encoded(Decoded(s, space).value, space) == s <==>
            (s != "" ==> s[0] != '0') && Value(DigitsOf(s, space), BASE) < TWO63
  {
    if (s != "" ==> s[0] != '0') && Value(DigitsOf(s, space), BASE) < TWO63 {
      CanonicalDecodes(s, space);
    }
    if Encoded(Decoded(s, space).value, space) == s {
      EncodedIsCanonical(s, space);
    }
  }
}
