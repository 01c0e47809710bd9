/**
 Version comparison and constraint ranges of pkg/utils/semver.go, from the point where the
 regular expressions have split the text into groups.
 */
module Semver {
  import opened Numerals
  import opened Orders
  import opened Results

  const MAX_INT: int := 0x7fff_ffff_ffff_ffff
  const MIN_INT: int := -0x8000_0000_0000_0000

  datatype Version = Version(major: int, minor: int, patch: int, pre: seq<string>)

  // ------------------------------------------------------------ strconv.Atoi

  predicate AllDigits(s: string) {
    s != "" && forall i :: 0 <= i < |s| ==> '0' <= s[i] <= '9'
  }

  function DecimalDigits(s: string): seq<nat>
    requires AllDigits(s)
  {
    seq(|s|, i requires 0 <= i < |s| => s[i] as int - '0' as int)
  }

  function DecimalValue(s: string): nat
    requires AllDigits(s)
  {
    Value(DecimalDigits(s), 10)
  }

  /** An optional sign and decimal digits that fit 64 bits; anything else is an error. */
  function Atoi(s: string): Option<int> {
    if s == "" then None
    else
      var signed := s[0] == '-' || s[0] == '+';
      var digits := if signed then s[1..] else s;
      if !AllDigits(digits) then None
      else
        var n: int := if s[0] == '-' then 0 - DecimalValue(digits) else DecimalValue(digits);
        if MIN_INT <= n <= MAX_INT then Some(n) else None
  }

  function Itoa(n: int): string {
    if n < 0 then "-" + Decimal(-n) else Decimal(n)
  }

  // -------------------------------------------------------------- comparison

  function CompareSegment(v: int, o: int): int {
    if v < o then -1 else if v > o then 1 else 0
  }

  function CompareAlphaNum(a: string, b: string): int {
    if a == b then 0 else CompareRead(a, b, Atoi(a), Atoi(b))
  }

  /** Two different identifiers, given the number each of them reads as. */
  function CompareRead(a: string, b: string, x: Option<int>, y: Option<int>): int {
    match (x, y)
    case (None, None) => if CompareStrings(a, b) > 0 then 1 else -1
    case (None, Some(_)) => 1
    case (Some(_), None) => -1
    case (Some(m), Some(n)) => if m > n then 1 else -1
  }

  function ComparePrereleaseFrom(a: seq<string>, b: seq<string>, i: nat): int
    requires i <= |a| && i <= |b|
    decreases |a| - i
  {
    if i == |a| then (if |b| > |a| then -1 else 0)
    else if i == |b| then 1
    else
      var d := CompareAlphaNum(a[i], b[i]);
      if d != 0 then d else ComparePrereleaseFrom(a, b, i + 1)
  }

  function ComparePrerelease(a: seq<string>, b: seq<string>): int {
    if |a| == 0 && |b| == 0 then 0
    else if |a| == 0 then 1
    else if |b| == 0 then -1
    else ComparePrereleaseFrom(a, b, 0)
  }

  function Compare(v: Version, o: Version): int {
    if CompareSegment(v.major, o.major) != 0 then CompareSegment(v.major, o.major)
    else if CompareSegment(v.minor, o.minor) != 0 then CompareSegment(v.minor, o.minor)
    else if CompareSegment(v.patch, o.patch) != 0 then CompareSegment(v.patch, o.patch)
    else ComparePrerelease(v.pre, o.pre)
  }

  // ------------------------------------------------- identifiers as an order

  /** A numeral is written the one way Itoa writes it. */
  predicate Canonical(s: string) {
    Atoi(s).Some? ==> s == Itoa(Atoi(s).value)
  }

  ghost predicate CanonicalVersion(v: Version) {
    forall i :: 0 <= i < |v.pre| ==> Canonical(v.pre[i])
  }

  /** Two spellings of one number are each below the other; every other pair is compared consistently. */
  lemma AlphaNumAntisymmetric(a: string, b: string)
    ensures CompareAlphaNum(a, b) == -CompareAlphaNum(b, a) <==>
            !(a != b && Atoi(a).Some? && Atoi(a) == Atoi(b))
    ensures CompareAlphaNum(a, b) == 0 <==> a == b
  {
    CompareStringsAntisymmetric(a, b);
  }

  /** Two spellings of one number. */
  predicate Respelt(a: string, b: string) {
    a != b && Atoi(a).Some? && Atoi(a) == Atoi(b)
  }

  lemma ReadPreorder(a: string, b: string, c: string, x: Option<int>, y: Option<int>, z: Option<int>)
    requires a != b && b != c && CompareRead(a, b, x, y) <= 0 && CompareRead(b, c, y, z) <= 0
    requires a == c ==> x == z
    ensures a != c ==> CompareRead(a, c, x, z) <= 0
    ensures a == c ==> x.Some? && x == y
  {
    if x.None? && y.None? && z.None? {
      CompareStringsTransitive(a, b, c);
      CompareStringsAntisymmetric(a, b);
    }
  }

  /** As a relation, "not above" is transitive on identifiers; a round trip goes through a respelling. */
  lemma AlphaNumPreorder(a: string, b: string, c: string)
    requires CompareAlphaNum(a, b) <= 0 && CompareAlphaNum(b, c) <= 0
    ensures CompareAlphaNum(a, c) <= 0
    ensures a == c && a != b ==> Respelt(a, b)
  {
    if a != b && b != c {
      ReadPreorder(a, b, c, Atoi(a), Atoi(b), Atoi(c));
    }
  }

  /** The lists first differ at `i`, in two spellings of one number. */
  predicate RespeltAt(a: seq<string>, b: seq<string>, i: nat) {
    i < |a| && i < |b| && a[..i] == b[..i] && Respelt(a[i], b[i])
  }

  predicate SameNumbers(v: Version, w: Version) {
    v.major == w.major && v.minor == w.minor && v.patch == w.patch
  }

  lemma {:induction false} PrereleaseAntisymmetric(a: seq<string>, b: seq<string>, i: nat)
    requires i <= |a| && i <= |b| && a[..i] == b[..i]
    ensures ComparePrereleaseFrom(a, b, i) == -ComparePrereleaseFrom(b, a, i) <==> !exists k: nat :: RespeltAt(a, b, k)
    ensures ComparePrereleaseFrom(a, b, i) == 0 ==> a == b
    decreases |a| - i
  {
    if i < |a| && i < |b| {
      AlphaNumAntisymmetric(a[i], b[i]);
      if a[i] == b[i] {
        assert a[..i + 1] == a[..i] + [a[i]] && b[..i + 1] == b[..i] + [b[i]];
        PrereleaseAntisymmetric(a, b, i + 1);
      } else {
        RespeltOnlyAt(a, b, i);
      }
    } else {
      NoRespellingBefore(a, b, i);
    }
  }

  /** A respelling can only sit at the first difference. */
  lemma RespeltOnlyAt(a: seq<string>, b: seq<string>, i: nat)
    requires i < |a| && i < |b| && a[..i] == b[..i] && a[i] != b[i]
    ensures (exists k: nat :: RespeltAt(a, b, k)) <==> Respelt(a[i], b[i])
  {
    if Respelt(a[i], b[i]) {
      assert RespeltAt(a, b, i);
    }
    forall k: nat | RespeltAt(a, b, k) ensures k == i {
    }
  }

  lemma NoRespellingBefore(a: seq<string>, b: seq<string>, i: nat)
    requires i <= |a| && i <= |b| && a[..i] == b[..i] && (i == |a| || i == |b|)
    ensures !exists k: nat :: RespeltAt(a, b, k)
    ensures |a| == |b| ==> a == b
  {
    forall k: nat | k < |a| && k < |b| ensures a[k] == b[k] {
      assert a[..i][k] == b[..i][k];
    }
  }

  lemma {:induction false} PrereleaseReflexive(a: seq<string>, i: nat)
    requires i <= |a|
    ensures ComparePrereleaseFrom(a, a, i) == 0
    decreases |a| - i
  {
    if i < |a| {
      PrereleaseReflexive(a, i + 1);
    }
  }

  /** The versions differ in nothing before two spellings of one number. */
  ghost predicate Confused(v: Version, w: Version) {
    SameNumbers(v, w) && exists k: nat :: RespeltAt(v.pre, w.pre, k)
  }

  /** Compare is antisymmetric exactly on pairs that do not first differ in two spellings of one number. */
  lemma CompareAntisymmetric(v: Version, w: Version)
    ensures Compare(v, w) == -Compare(w, v) <==> !Confused(v, w)
    ensures Compare(v, w) == 0 <==> v == w
  {
    PrereleaseAntisymmetric(v.pre, w.pre, 0);
    PrereleaseReflexive(v.pre, 0);
  }

  /** An input where it fails: `1.0.0--5` and `1.0.0--05` are each below the other. */
  lemma EachBelowTheOther()
    ensures ValidIdentifier("-5") && ValidIdentifier("-05")
    ensures Compare(Version(1, 0, 0, ["-5"]), Version(1, 0, 0, ["-05"])) == -1
    ensures Compare(Version(1, 0, 0, ["-05"]), Version(1, 0, 0, ["-5"])) == -1
  {
    MinusFive();
  }

  lemma MinusFive()
    ensures Atoi("-5") == Some(-5) && Atoi("-05") == Some(-5)
  {
    assert "-5"[1..] == "5" && "-05"[1..] == "05";
    assert DecimalDigits("5") == [5] && DecimalDigits("05") == [0, 5];
    assert [0, 5][..1] == [0];
  }

  lemma {:induction false} PrereleaseTransitive(a: seq<string>, b: seq<string>, c: seq<string>, i: nat)
    requires i <= |a| && i <= |b| && i <= |c| && a[..i] == b[..i] == c[..i]
    requires forall k: nat :: RespeltAt(a, b, k) ==> k + 1 == |a|
    requires ComparePrereleaseFrom(a, b, i) <= 0 && ComparePrereleaseFrom(b, c, i) <= 0
    ensures ComparePrereleaseFrom(a, c, i) <= 0
    decreases |a| - i
  {
    if i < |a| && i < |b| && i < |c| {
      AlphaNumPreorder(a[i], b[i], c[i]);
      if a[i] == b[i] == c[i] {
        assert a[..i + 1] == a[..i] + [a[i]] && b[..i + 1] == b[..i] + [b[i]] && c[..i + 1] == c[..i] + [c[i]];
        PrereleaseTransitive(a, b, c, i + 1);
      } else if a[i] == c[i] {
        assert RespeltAt(a, b, i);
      }
    }
  }

  /** The first version goes on after the identifier that the second one spells differently. */
  ghost predicate Derails(u: Version, v: Version) {
    SameNumbers(u, v) && exists k: nat :: RespeltAt(u.pre, v.pre, k) && k + 1 < |u.pre|
  }

  /** Compare is transitive through `v`, whatever comes after it, exactly when `u` and `v` do not derail it. */
  lemma CompareTransitive(u: Version, v: Version)
    ensures (forall w :: Compare(u, v) <= 0 && Compare(v, w) <= 0 ==> Compare(u, w) <= 0) <==> !Derails(u, v)
  {
    if Derails(u, v) {
      var k: nat :| RespeltAt(u.pre, v.pre, k) && k + 1 < |u.pre|;
      Detour(u, v, k);
    } else {
      forall w | Compare(u, v) <= 0 && Compare(v, w) <= 0 ensures Compare(u, w) <= 0 {
        TransitiveThrough(u, v, w);
      }
    }
  }

  lemma TransitiveThrough(u: Version, v: Version, w: Version)
    requires !Derails(u, v) && Compare(u, v) <= 0 && Compare(v, w) <= 0
    ensures Compare(u, w) <= 0
  {
    if SameNumbers(u, v) && SameNumbers(v, w) && u.pre != [] && v.pre != [] && w.pre != [] {
      assert u.pre[..0] == v.pre[..0] == w.pre[..0];
      PrereleaseTransitive(u.pre, v.pre, w.pre, 0);
    }
  }

  lemma {:induction false} PrereleaseAt(a: seq<string>, b: seq<string>, i: nat, k: nat)
    requires i <= k && k <= |a| && k <= |b| && a[..k] == b[..k]
    ensures ComparePrereleaseFrom(a, b, i) == ComparePrereleaseFrom(a, b, k)
    decreases k - i
  {
    if i < k {
      assert a[..k][i] == b[..k][i];
      PrereleaseAt(a, b, i + 1, k);
    }
  }

  /** From `u` to `v` to the shorter `w`, each not above the next, and `u` above `w`. */
  lemma Detour(u: Version, v: Version, k: nat)
    requires SameNumbers(u, v) && RespeltAt(u.pre, v.pre, k) && k + 1 < |u.pre|
    ensures var w := u.(pre := u.pre[..k + 1]); Compare(u, v) <= 0 && Compare(v, w) <= 0 && Compare(u, w) > 0
  {
    var short := u.pre[..k + 1];
    assert short[..k] == u.pre[..k] && short[k] == u.pre[k];
    PrereleaseAt(u.pre, v.pre, 0, k);
    PrereleaseAt(v.pre, short, 0, k);
    PrereleaseAt(u.pre, short, 0, k + 1);
  }

  /** An input where it fails: `1.0.0--5.b`, `1.0.0--05`, `1.0.0--5.a`. */
  lemma NotTransitive()
    ensures Compare(Version(1, 0, 0, ["-5", "b"]), Version(1, 0, 0, ["-05"])) <= 0
    ensures Compare(Version(1, 0, 0, ["-05"]), Version(1, 0, 0, ["-5", "a"])) <= 0
    ensures Compare(Version(1, 0, 0, ["-5", "b"]), Version(1, 0, 0, ["-5", "a"])) > 0
  {
    MinusFive();
    assert Atoi("a").None? && Atoi("b").None?;
    PrereleaseAt(["-5", "b"], ["-5", "a"], 0, 1);
  }

  /** Without respellings Compare is a total order. */
  lemma CanonicalOrder(u: Version, v: Version, w: Version)
    requires CanonicalVersion(u) && CanonicalVersion(v)
    ensures Compare(u, v) == -Compare(v, u)
    ensures Compare(u, v) <= 0 && Compare(v, w) <= 0 ==> Compare(u, w) <= 0
  {
    CompareAntisymmetric(u, v);
    if Compare(u, v) <= 0 && Compare(v, w) <= 0 {
      TransitiveThrough(u, v, w);
    }
  }

  // ------------------------------ section 11 of Semantic Versioning 2.0.0

  /** What the version expression accepts as one identifier, after lower-casing. */
  predicate ValidIdentifier(s: string) {
    && s != ""
    && (forall i :: 0 <= i < |s| ==> '0' <= s[i] <= '9' || 'a' <= s[i] <= 'z' || s[i] == '-')
    && (AllDigits(s) ==> s == "0" || s[0] != '0')
  }

  /** ASCII order: the first difference decides, and a proper prefix is smaller. */
  ghost predicate LexicallyBefore(a: string, b: string) {
    exists k :: 0 <= k <= |a| && k < |b| && a[..k] == b[..k] && (k == |a| || a[k] < b[k])
  }

  /** 11.4.1 to 11.4.3: numbers by value, below everything else; the rest in ASCII order. */
  ghost predicate IdentifierPrecedes(a: string, b: string) {
    if AllDigits(a) && AllDigits(b) then DecimalValue(a) < DecimalValue(b)
    else if AllDigits(a) || AllDigits(b) then AllDigits(a)
    else LexicallyBefore(a, b)
  }

  /** 11.3 and 11.4.4: a pre-release precedes its release, and a proper prefix the longer list. */
  ghost predicate PrereleasePrecedes(a: seq<string>, b: seq<string>) {
    && a != []
    && (b == [] || exists k :: PrecedesAt(a, b, k))
  }

  ghost predicate PrecedesAt(a: seq<string>, b: seq<string>, k: int) {
    0 <= k <= |a| && k < |b| && a[..k] == b[..k] && (k == |a| || IdentifierPrecedes(a[k], b[k]))
  }

  /** 11.2 to 11.4. */
  ghost predicate Precedes(v: Version, w: Version) {
    || v.major < w.major
    || (v.major == w.major && v.minor < w.minor)
    || (v.major == w.major && v.minor == w.minor && v.patch < w.patch)
    || (v.major == w.major && v.minor == w.minor && v.patch == w.patch && PrereleasePrecedes(v.pre, w.pre))
  }

  /** A numeral that fits an int, or text that Atoi rejects. */
  predicate Plain(s: string) {
    ValidIdentifier(s) && if AllDigits(s) then DecimalValue(s) <= MAX_INT else Atoi(s).None?
  }

  ghost predicate IdentifiersAgree(a: string, b: string) {
    && (CompareAlphaNum(a, b) < 0 <==> IdentifierPrecedes(a, b))
    && (CompareAlphaNum(a, b) > 0 <==> IdentifierPrecedes(b, a))
    && (CompareAlphaNum(a, b) == 0 <==> a == b)
  }

  lemma {:induction false} CompareStringsIsLexical(a: string, b: string)
    ensures CompareStrings(a, b) < 0 <==> LexicallyBefore(a, b)
    decreases |a|
  {
    if a != [] && b != [] && a[0] == b[0] {
      CompareStringsIsLexical(a[1..], b[1..]);
      if LexicallyBefore(a[1..], b[1..]) {
        var k :| 0 <= k <= |a[1..]| && k < |b[1..]| && a[1..][..k] == b[1..][..k] &&
          (k == |a[1..]| || a[1..][k] < b[1..][k]);
        assert a[..k + 1] == [a[0]] + a[1..][..k] && b[..k + 1] == [b[0]] + b[1..][..k];
      }
      if LexicallyBefore(a, b) {
        var k :| 0 <= k <= |a| && k < |b| && a[..k] == b[..k] && (k == |a| || a[k] < b[k]);
        assert k > 0;
        assert a[1..][..k - 1] == a[..k][1..] && b[1..][..k - 1] == b[..k][1..];
      }
    } else if a != [] && b != [] {
      assert a[..0] == b[..0];
      if LexicallyBefore(a, b) {
        var k :| 0 <= k <= |a| && k < |b| && a[..k] == b[..k] && (k == |a| || a[k] < b[k]);
        assert k > 0 ==> a[..k][0] == b[..k][0];
      }
    } else if a == [] && b != [] {
      assert a[..0] == b[..0];
    }
  }

  lemma AtoiOfDigits(s: string)
    requires AllDigits(s)
    ensures Atoi(s) == if DecimalValue(s) <= MAX_INT then Some(DecimalValue(s)) else None
  {
  }

  /** A numeral without a leading zero is the one Itoa writes. */
  lemma NumeralIsItoa(s: string)
    requires AllDigits(s) && (s == "0" || s[0] != '0')
    ensures Itoa(DecimalValue(s)) == s
  {
    var ds := DecimalDigits(s);
    if s == "0" {
      assert ds == [0] && ds[..0] == [];
      assert Value(ds, 10) == 0;
    } else {
      LeadingDigit(ds, 10);
      DigitsOfValue(ds, 10);
    }
  }

  lemma PlainIsCanonical(s: string)
    requires Plain(s)
    ensures Canonical(s)
  {
    if AllDigits(s) {
      AtoiOfDigits(s);
      NumeralIsItoa(s);
    }
  }

  lemma PlainIdentifiersAgree(a: string, b: string)
    requires Plain(a) && Plain(b)
    ensures IdentifiersAgree(a, b)
  {
    AlphaNumAntisymmetric(a, b);
    CompareStringsIsLexical(a, b);
    CompareStringsIsLexical(b, a);
    CompareStringsAntisymmetric(a, b);
    if AllDigits(a) {
      AtoiOfDigits(a);
      NumeralIsItoa(a);
    }
    if AllDigits(b) {
      AtoiOfDigits(b);
      NumeralIsItoa(b);
    }
  }

  /**
   Among valid identifiers the plain ones are exactly those the code orders as section 11 does:
   a negative numeral is taken for a number, and one beyond 64 bits for text.
   */
  lemma AgreementIsExact(a: string)
    requires ValidIdentifier(a)
    ensures Plain(a) <==> forall b :: Plain(b) ==> IdentifiersAgree(a, b)
  {
    if Plain(a) {
      forall b | Plain(b) ensures IdentifiersAgree(a, b) {
        PlainIdentifiersAgree(a, b);
      }
    } else if AllDigits(a) {
      AtoiOfDigits(a);
      assert Plain("-") && !AllDigits("-");
      assert CompareStrings(a, "-") > 0;
      assert !IdentifiersAgree(a, "-");
    } else {
      ZeroIsPlain();
      assert Atoi(a).Some? && !AllDigits(a);
      assert a[0] == '-' && Atoi(a).value <= 0;
      assert CompareAlphaNum(a, "0") < 0;
      assert !IdentifiersAgree(a, "0");
    }
  }

  lemma ZeroIsPlain()
    ensures Plain("0") && Atoi("0") == Some(0)
  {
  }

  ghost predicate PlainVersion(v: Version) {
    forall i :: 0 <= i < |v.pre| ==> Plain(v.pre[i])
  }

  lemma {:induction false} PrereleaseAgrees(a: seq<string>, b: seq<string>, i: nat)
    requires i <= |a| && i <= |b| && a[..i] == b[..i]
    requires forall k :: 0 <= k < |a| ==> Plain(a[k])
    requires forall k :: 0 <= k < |b| ==> Plain(b[k])
    ensures ComparePrereleaseFrom(a, b, i) < 0 <==> exists k :: PrecedesAt(a, b, k)
    decreases |a| - i
  {
    if i == |a| || i == |b| {
      if i < |b| {
        assert PrecedesAt(a, b, i);
      }
    } else {
      PlainIdentifiersAgree(a[i], b[i]);
      if a[i] == b[i] {
        assert a[..i + 1] == a[..i] + [a[i]] && b[..i + 1] == b[..i] + [b[i]];
        PrereleaseAgrees(a, b, i + 1);
      } else {
        assert CompareAlphaNum(a[i], b[i]) < 0 ==> PrecedesAt(a, b, i);
        forall k | PrecedesAt(a, b, k) ensures k == i {
          PrecedesOnlyAtDifference(a, b, k, i);
        }
      }
    }
  }

  lemma PrecedesOnlyAtDifference(a: seq<string>, b: seq<string>, k: int, i: nat)
    requires i < |a| && i < |b| && a[..i] == b[..i] && a[i] != b[i] && PrecedesAt(a, b, k)
    requires forall j :: 0 <= j < |a| ==> Plain(a[j])
    ensures k == i
  {
  }

  /** On versions whose identifiers are plain, Compare is the precedence of section 11. */
  lemma CompareIsPrecedence(v: Version, w: Version)
    requires PlainVersion(v) && PlainVersion(w)
    ensures Compare(v, w) < 0 <==> Precedes(v, w)
    ensures Compare(v, w) > 0 <==> Precedes(w, v)
    ensures Compare(v, w) == 0 <==> v == w
  {
    forall i | 0 <= i < |v.pre| ensures Canonical(v.pre[i]) {
      PlainIsCanonical(v.pre[i]);
    }
    forall i | 0 <= i < |w.pre| ensures Canonical(w.pre[i]) {
      PlainIsCanonical(w.pre[i]);
    }
    CompareAntisymmetric(v, w);
    PrereleaseAgrees(v.pre, w.pre, 0);
    PrereleaseAgrees(w.pre, v.pre, 0);
  }

  // ------------------------------------------------------------- constraints

  datatype Operator = Exact | Tilde | Caret

  datatype Part = Absent | Wildcard | Number(n: int)

  /** The groups of the constraint expression. */
  datatype Groups = Groups(op: Operator, major: int, minor: Part, patch: Part, pre: seq<string>)

  /** [min, max) */
  datatype Constraint = Constraint(min: Version, max: Version)

  predicate InRange(n: int) {
    0 <= n <= MAX_INT
  }

  predicate PartInRange(p: Part) {
    p.Number? ==> InRange(p.n)
  }

  /** MustAtoI never returns a negative number or one beyond an int for a group of digits. */
  predicate WellFormed(g: Groups) {
    InRange(g.major) && PartInRange(g.minor) && PartInRange(g.patch)
  }

  /** x++ on a 64-bit int. */
  function Increment(n: int): int {
    if n == MAX_INT then MIN_INT else n + 1
  }

  function PartValue(p: Part): int {
    if p.Number? then p.n else 0
  }

  /** The version the constraint is written around. */
  function Base(g: Groups): Version {
    if g.minor.Wildcard? then Version(g.major, 0, 0, [])
    else if g.patch.Wildcard? then Version(g.major, PartValue(g.minor), 0, [])
    else Version(g.major, PartValue(g.minor), PartValue(g.patch), g.pre)
  }

  datatype Component = Major | Minor | Patch

  /** The component that the upper bound raises. */
  function Raised(g: Groups): Component {
    if g.minor.Wildcard? then Major
    else if g.patch.Wildcard? then Minor
    else match g.op
      case Tilde => Minor
      case Caret => if g.major != 0 then Major else if PartValue(g.minor) != 0 then Minor else Patch
      case Exact => Patch
  }

  function Bump(b: Version, c: Component): Version {
    match c
    case Major => Version(Increment(b.major), 0, 0, b.pre)
    case Minor => Version(b.major, Increment(b.minor), 0, b.pre)
    case Patch => Version(b.major, b.minor, Increment(b.patch), b.pre)
  }

  /** The bounds NewConstraint builds. */
  function Bounds(g: Groups): Constraint {
    var b := Base(g);
    var upper :=
      if b.pre != [] && g.op == Exact then b.(pre := b.pre[|b.pre| - 1 := b.pre[|b.pre| - 1] + " "])
      else Bump(b, Raised(g));
    Constraint(b, if upper.pre == [] then upper.(pre := ["0"]) else upper)
  }

  /** NewConstraint, assignment by assignment; the deferred fix-up is at every return. */
  method NewConstraint(g: Groups) returns (c: Constraint)
    ensures c == Bounds(g)
  {
    var min, max := Version(0, 0, 0, []), Version(0, 0, 0, []);
    min := min.(major := g.major);
    max := max.(major := min.major);
    if g.minor.Wildcard? {
      max := max.(major := Increment(min.major));
      return Constraint(min, if max.pre == [] then max.(pre := ["0"]) else max);
    } else if g.minor.Number? {
      min := min.(minor := g.minor.n);
      max := max.(minor := min.minor);
    }
    if g.patch.Wildcard? {
      max := max.(minor := Increment(min.minor));
      return Constraint(min, if max.pre == [] then max.(pre := ["0"]) else max);
    } else if g.patch.Number? {
      min := min.(patch := g.patch.n);
      max := max.(patch := min.patch);
    }
    min := min.(pre := g.pre);
    max := max.(pre := min.pre);
    if g.op == Tilde {
      max := max.(minor := Increment(max.minor), patch := 0);
    } else if g.op == Caret {
      if min.major == 0 {
        if min.minor == 0 {
          max := max.(patch := Increment(max.patch));
        } else {
          max := max.(minor := Increment(max.minor), patch := 0);
        }
      } else {
        max := max.(major := Increment(max.major), minor := 0, patch := 0);
      }
    } else if |max.pre| > 0 {
      max := max.(pre := max.pre[|max.pre| - 1 := max.pre[|max.pre| - 1] + " "]);
    } else {
      max := max.(patch := Increment(max.patch));
    }
    return Constraint(min, if max.pre == [] then max.(pre := ["0"]) else max);
  }

  /** Check, on a version that matched the version expression. */
  predicate Check(c: Constraint, v: Version) {
    Compare(c.min, v) <= 0 && Compare(c.max, v) > 0
  }

  /** `v` is the release b or later; a pre-release of b itself is earlier. */
  ghost predicate AtOrAbove(v: Version, b: Version) {
    || v.major > b.major
    || (v.major == b.major && v.minor > b.minor)
    || (v.major == b.major && v.minor == b.minor && v.patch > b.patch)
    || (v.major == b.major && v.minor == b.minor && v.patch == b.patch && v.pre == [])
  }

  /** What the notation promises, for a constraint without a pre-release. */
  ghost predicate Promised(g: Groups, v: Version) {
    var b := Base(g);
    if g.minor.Wildcard? then AtOrAbove(v, b) && v.major == b.major
    else if g.patch.Wildcard? then AtOrAbove(v, b) && v.major == b.major && v.minor == b.minor
    else match g.op
      case Exact => v == b
      case Tilde => AtOrAbove(v, b) && v.major == b.major && v.minor == b.minor
      case Caret =>
        && AtOrAbove(v, b)
        && v.major == b.major
        && (b.major == 0 ==> v.minor == b.minor)
        && (b.major == 0 && b.minor == 0 ==> v.patch == b.patch)
  }

  /** A pre-release of the upper bound whose first identifier reads as a negative number. */
  ghost predicate SlipsIn(g: Groups, v: Version) {
    var upper := Bounds(g).max;
    && v.major == upper.major && v.minor == upper.minor && v.patch == upper.patch
    && v.pre != [] && Atoi(v.pre[0]).Some? && Atoi(v.pre[0]).value < 0
  }

  /** The raised component has no successor. */
  predicate Overflows(g: Groups) {
    match Raised(g)
    case Major => Base(g).major == MAX_INT
    case Minor => Base(g).minor == MAX_INT
    case Patch => Base(g).patch == MAX_INT
  }

  predicate VersionInRange(v: Version) {
    InRange(v.major) && InRange(v.minor) && InRange(v.patch)
  }

  /**
   What a constraint without a pre-release accepts, on every version: what the notation promises and the
   pre-releases of the upper bound that slip in, unless the upper bound overflows; then nothing.
   */
  lemma CheckExact(g: Groups, v: Version)
    requires WellFormed(g) && VersionInRange(v) && Base(g).pre == []
    ensures Check(Bounds(g), v) <==> !Overflows(g) && (Promised(g, v) || SlipsIn(g, v))
  {
  }

  /** A version a registry would publish never slips in, so the accepted set is the promised one. */
  lemma CheckIsPromised(g: Groups, v: Version)
    requires WellFormed(g) && VersionInRange(v) && Base(g).pre == [] && PlainVersion(v) && !Overflows(g)
    ensures Check(Bounds(g), v) <==> Promised(g, v)
  {
    CheckExact(g, v);
    if v.pre != [] && AllDigits(v.pre[0]) {
      AtoiOfDigits(v.pre[0]);
    }
  }

  /** Caret 1.2.3 accepts 2.0.0--5, because Atoi reads the identifier -5 as a number below 0. */
  lemma NegativeIdentifierSlipsIn()
    ensures var g := Groups(Caret, 1, Number(2), Number(3), []);
            var v := Version(2, 0, 0, ["-5"]);
            ValidIdentifier("-5") && Check(Bounds(g), v) && !Promised(g, v)
  {
  }

  /** Among strings without blanks, only `x` itself lies between `x` and `x` followed by a blank. */
  lemma {:induction false} BlankSuccessor(x: string, y: string)
    requires forall i :: 0 <= i < |y| ==> y[i] > ' '
    ensures CompareStrings(x, y) <= 0 && CompareStrings(x + " ", y) > 0 <==> x == y
    decreases |x|
  {
    if x != [] && y != [] && x[0] == y[0] {
      assert (x + " ")[1..] == x[1..] + " ";
      BlankSuccessor(x[1..], y[1..]);
      assert x == y <==> x[1..] == y[1..] by {
        assert x == [x[0]] + x[1..] && y == [y[0]] + y[1..];
      }
    }
  }

  lemma TextSuccessor(x: string, y: string)
    requires Atoi(x).None? && x != "" && Plain(y)
    ensures CompareAlphaNum(x, y) <= 0 && CompareAlphaNum(x + " ", y) > 0 <==> x == y
  {
    BlankSuccessor(x, y);
    var z := x + " ";
    assert z[|z| - 1] == ' ' && z[1..][|z| - 2] == ' ';
    assert Atoi(z).None?;
  }

  lemma {:induction false} PrefixOnly(a: seq<string>, b: seq<string>, i: nat)
    requires i < |a| && i <= |b| && a[..i] == b[..i]
    requires Atoi(a[|a| - 1]).None? && a[|a| - 1] != "" && forall k :: 0 <= k < |b| ==> Plain(b[k])
    ensures var raised := a[|a| - 1 := a[|a| - 1] + " "];
      ComparePrereleaseFrom(a, b, i) <= 0 && ComparePrereleaseFrom(raised, b, i) > 0 <==> a <= b
    decreases |a| - i
  {
    if i < |b| {
      if i == |a| - 1 {
        TextSuccessor(a[i], b[i]);
        assert a[i] == b[i] ==> a == b[..|a|] by {
          assert a == a[..i] + [a[i]] && b[..|a|] == b[..i] + [b[i]];
        }
      } else if a[i] == b[i] {
        assert a[..i + 1] == a[..i] + [a[i]] && b[..i + 1] == b[..i] + [b[i]];
        PrefixOnly(a, b, i + 1);
      }
    }
  }

  /** A plain constraint with a pre-release that ends in text accepts that version and its dotted extensions. */
  lemma CheckPrerelease(g: Groups, v: Version)
    requires WellFormed(g) && g.op == Exact && Base(g).pre != [] && PlainVersion(v)
    requires var last := Base(g).pre[|Base(g).pre| - 1]; last != "" && Atoi(last).None?
    ensures Check(Bounds(g), v) <==> v.(pre := []) == Base(g).(pre := []) && Base(g).pre <= v.pre
  {
    PrefixOnly(Base(g).pre, v.pre, 0);
  }

  /** The accepted versions of any constraint form an interval. */
  lemma CheckConvex(c: Constraint, u: Version, v: Version, w: Version)
    requires CanonicalVersion(c.min) && CanonicalVersion(c.max)
    requires CanonicalVersion(u) && CanonicalVersion(v) && CanonicalVersion(w)
    requires Check(c, u) && Check(c, w) && Compare(u, v) <= 0 && Compare(v, w) <= 0
    ensures Check(c, v)
  {
    CanonicalOrder(c.min, u, v);
    if Compare(c.max, v) <= 0 {
      CanonicalOrder(c.max, v, w);
    }
  }
}
