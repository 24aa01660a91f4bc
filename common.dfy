/**
 * Helpers shared by every component: optional values, PHP truthiness and
 * integer casts, and the order-preserving list operations that the ORM's
 * `filter`, `sort` and `limit` perform on a `DataList`.
 */
module Common {

  datatype Option<T> = None | Some(value: T) {
    function GetOr(default: T): T {
      if Some? then value else default
    }
  }

  /** PHP truthiness of a request variable: absent, "" and "0" are falsy. */
  predicate Truthy(v: Option<string>) {
    v.Some? && v.value != "" && v.value != "0"
  }

  // ---------------------------------------------------------------------
  // Decimal digits and PHP's (int) cast of a string
  // ---------------------------------------------------------------------

  predicate IsDigit(c: char) { '0' <= c <= '9' }

  predicate AllDigits(s: string) {
    forall i :: 0 <= i < |s| ==> IsDigit(s[i])
  }

  function DigitValue(c: char): nat
    requires IsDigit(c)
  {
    c as int - '0' as int
  }

  function DigitChar(d: nat): (c: char)
    requires d < 10
    ensures IsDigit(c) && DigitValue(c) == d
  {
    ('0' as int + d) as char
  }

  /** The value of a string of decimal digits, read most significant first. */
  function DigitsValue(ds: string): nat
    requires AllDigits(ds)
  {
    if ds == [] then 0
    else DigitsValue(ds[..|ds| - 1]) * 10 + DigitValue(ds[|ds| - 1])
  }

  /** The longest prefix of `s` made of decimal digits. */
  function LeadingDigits(s: string): (r: string)
    ensures |r| <= |s| && r == s[..|r|] && AllDigits(r)
    ensures |r| < |s| ==> !IsDigit(s[|r|])
  {
    if s == [] || !IsDigit(s[0]) then [] else [s[0]] + LeadingDigits(s[1..])
  }

  /** The digit run stops at the first character that is not a digit. */
  lemma {:induction false} LeadingDigitsStop(ds: string, rest: string)
    requires AllDigits(ds) && (rest == [] || !IsDigit(rest[0]))
    ensures LeadingDigits(ds + rest) == ds
  {
    if ds != [] {
      assert (ds + rest)[1..] == ds[1..] + rest;
      LeadingDigitsStop(ds[1..], rest);
    } else {
      assert ds + rest == rest;
    }
  }

  lemma {:induction false} LeadingDigitsOfDigits(s: string)
    requires AllDigits(s)
    ensures LeadingDigits(s) == s
  {
    if s != [] {
      LeadingDigitsOfDigits(s[1..]);
    }
  }

  function Pow10(n: nat): (r: nat)
    ensures r >= 1
  {
    if n == 0 then 1 else 10 * Pow10(n - 1)
  }

  /** Digits written after other digits shift them left by their own count. */
  lemma {:induction false} AllDigitsAppend(a: string, b: string)
    requires AllDigits(a) && AllDigits(b)
    ensures AllDigits(a + b)
  {
    forall i | 0 <= i < |a + b|
      ensures IsDigit((a + b)[i])
    {
      if i >= |a| {
        assert (a + b)[i] == b[i - |a|];
      }
    }
  }

  lemma {:induction false} DigitsValueAppend(a: string, b: string)
    requires AllDigits(a) && AllDigits(b)
    ensures AllDigits(a + b)
    ensures DigitsValue(a + b) == DigitsValue(a) * Pow10(|b|) + DigitsValue(b)
    decreases |b|
  {
    AllDigitsAppend(a, b);
    if b == [] {
      assert a + b == a;
    } else {
      var ab, init := a + b, b[..|b| - 1];
      assert ab[..|ab| - 1] == a + init && ab[|ab| - 1] == b[|b| - 1];
      DigitsValueAppend(a, init);
      var x, y, p, d := DigitsValue(a), DigitsValue(init), Pow10(|init|), DigitValue(b[|b| - 1]);
      assert |init| == |b| - 1;
      assert Pow10(|b|) == 10 * p;
      assert DigitsValue(ab) == DigitsValue(a + init) * 10 + d;
      assert DigitsValue(b) == y * 10 + d;
      MulShift(x, y, p, d);
    }
  }

  lemma MulShift(x: nat, y: nat, p: nat, d: nat)
    ensures (x * p + y) * 10 + d == x * (10 * p) + (y * 10 + d)
  {
  }

  lemma {:induction false} Pow10Monotone(a: nat, b: nat)
    requires a <= b
    ensures Pow10(a) <= Pow10(b)
    decreases b
  {
    if a < b {
      Pow10Monotone(a, b - 1);
    }
  }

  /** `n` digits stand for less than 10^n. */
  lemma {:induction false} DigitsValueBound(ds: string)
    requires AllDigits(ds)
    ensures DigitsValue(ds) < Pow10(|ds|)
  {
    if ds != [] {
      DigitsValueBound(ds[..|ds| - 1]);
    }
  }

  /** A product with a positive natural factor is at least the other factor. */
  lemma MulAtLeast(k: nat, p: nat)
    requires k >= 1
    ensures k * p >= p
  {
    assert k * p == (k - 1) * p + p;
  }

  /** Dividing `a * p + b` by `p` gives `a` when `b` is below `p`. */
  lemma DivPlus(a: nat, b: nat, p: nat)
    requires b < p
    ensures (a * p + b) / p == a
  {
    var x := a * p + b;
    var q, r := x / p, x % p;
    assert x == q * p + r && 0 <= r < p;
    if q > a {
      assert (q - a) * p == q * p - a * p;
      MulAtLeast(q - a, p);
      assert false;
    } else if q < a {
      assert (a - q) * p == a * p - q * p;
      MulAtLeast(a - q, p);
      assert false;
    }
  }

  // ---------------------------------------------------------------------
  // Numeric strings: PHP's (int) cast and MySQL's string-to-number reading
  // ---------------------------------------------------------------------

  /** The characters PHP and MySQL skip before a number. */
  predicate IsPhpSpace(c: char) {
    c == ' ' || c == '\t' || c == '\n' || c == '\r' || c == '\U{B}' || c == '\U{C}'
  }

  function SkipSpace(s: string): (r: string)
    ensures |r| <= |s| && r == s[|s| - |r|..]
    ensures r == [] || !IsPhpSpace(r[0])
  {
    if s != [] && IsPhpSpace(s[0]) then SkipSpace(s[1..]) else s
  }

  predicate IsSignChar(c: char) { c == '+' || c == '-' }

  /** A decimal number: a sign, the mantissa's digits read as one integer, and a power of ten. */
  datatype Decimal = Decimal(negative: bool, mantissa: nat, exponent: int)

  /** The exact value of a decimal. */
  function DecimalValue(d: Decimal): real {
    var magnitude :=
      if d.exponent >= 0 then (d.mantissa * Pow10(d.exponent)) as real
      else d.mantissa as real / Pow10(-d.exponent) as real;
    if d.negative then -magnitude else magnitude
  }

  /** A decimal cut to an integer toward zero. */
  function Truncate(d: Decimal): int {
    var magnitude :=
      if d.exponent >= 0 then d.mantissa * Pow10(d.exponent)
      else d.mantissa / Pow10(-d.exponent);
    if d.negative then 0 - magnitude else magnitude
  }

  /** The power of ten an exponent part gives: "e" or "E", an optional sign and digits. */
  function ExponentPart(s: string): int {
    if s != [] && (s[0] == 'e' || s[0] == 'E') then
      var t := s[1..];
      var u := if t != [] && IsSignChar(t[0]) then t[1..] else t;
      var ds := LeadingDigits(u);
      if t != [] && t[0] == '-' then 0 - DigitsValue(ds) else DigitsValue(ds)
    else 0
  }

  /**
   * The head of a text as PHP and MySQL read a number from it: after the
   * leading white space, an optional sign, the integer digits, the digits
   * after a point, and whatever follows them.
   */
  datatype NumberText = NumberText(negative: bool, whole: string, fraction: string, tail: string)

  function SplitNumber(s: string): NumberText {
    var t := SkipSpace(s);
    var negative := t != [] && t[0] == '-';
    var u := if t != [] && IsSignChar(t[0]) then t[1..] else t;
    var whole := LeadingDigits(u);
    var rest := u[|whole|..];
    var fraction := if rest != [] && rest[0] == '.' then LeadingDigits(rest[1..]) else [];
    var tail := if rest != [] && rest[0] == '.' then rest[1 + |fraction|..] else rest;
    NumberText(negative, whole, fraction, tail)
  }

  /**
   * The longest numeric prefix of a string, read as PHP's numeric strings
   * and MySQL's string-to-number conversion both read it: leading white
   * space, an optional sign, digits with an optional fraction (at least
   * one digit in all) and an optional exponent. Whatever follows is
   * ignored, and a string without such a prefix reads as 0.
   */
  function NumericPrefix(s: string): Decimal {
    var n := SplitNumber(s);
    if n.whole == [] && n.fraction == [] then Decimal(n.negative, 0, 0)
    else
      DigitsValueAppend(n.whole, n.fraction);
      Decimal(n.negative, DigitsValue(n.whole + n.fraction), ExponentPart(n.tail) - |n.fraction|)
  }

  /** A complete exponent: "e" or "E", an optional sign and at least one digit, and nothing more. */
  predicate IsExponent(s: string) {
    |s| >= 2 && (s[0] == 'e' || s[0] == 'E') &&
    var digits := if IsSignChar(s[1]) then s[2..] else s[1..];
    digits != [] && AllDigits(digits)
  }

  /**
   * PHP's `is_numeric` on a string (PHP 7): white space, then a number with
   * at least one digit, then at most a complete exponent and nothing else.
   */
  predicate IsNumeric(s: string) {
    var n := SplitNumber(s);
    (n.whole != [] || n.fraction != []) && (n.tail == [] || IsExponent(n.tail))
  }

  /** PHP's `(int)` cast of a string (PHP 7.1 on): its numeric prefix, truncated toward zero. */
  function IntCast(s: string): int {
    Truncate(NumericPrefix(s))
  }

  /** How MySQL reads a string it compares with a number column: the numeric prefix's value. */
  function SqlNumber(s: string): real {
    DecimalValue(NumericPrefix(s))
  }

  /** Nonnegative integer division and real division differ by less than one. */
  lemma DivReal(m: nat, p: nat)
    requires p >= 1
    ensures (m / p) as real <= m as real / p as real < (m / p) as real + 1.0
  {
    var q, r := m / p, m % p;
    assert m == q * p + r && 0 <= r < p;
    assert m as real == q as real * p as real + r as real;
    assert m as real / p as real == q as real + r as real / p as real;
    assert 0.0 <= r as real / p as real < 1.0;
  }

  /** The cast is the exact reading truncated toward zero. */
  lemma TruncateBounds(d: Decimal)
    ensures !d.negative ==> Truncate(d) as real <= DecimalValue(d) < Truncate(d) as real + 1.0
    ensures d.negative ==> Truncate(d) as real - 1.0 < DecimalValue(d) <= Truncate(d) as real
  {
    if d.exponent < 0 {
      DivReal(d.mantissa, Pow10(-d.exponent));
    }
  }

  /** A plain run of digits reads as its value, both ways. */
  lemma {:induction false} DigitsReading(s: string)
    requires AllDigits(s)
    ensures NumericPrefix(s) == Decimal(false, DigitsValue(s), 0)
    ensures IntCast(s) == DigitsValue(s) && SqlNumber(s) == DigitsValue(s) as real
  {
    if s != [] {
      assert !IsPhpSpace(s[0]) && !IsSignChar(s[0]);
      assert SkipSpace(s) == s;
      LeadingDigitsOfDigits(s);
      assert s[|s|..] == [];
      assert s + [] == s;
    }
  }
  /** "<w>.5": the database reads half a unit more than the (int) cast. */
  lemma {:induction false} HalfReadings(w: string)
    requires AllDigits(w) && w != []
    ensures IsNumeric(w + ".5")
    ensures SqlNumber(w + ".5") == DigitsValue(w) as real + 0.5
    ensures IntCast(w + ".5") == DigitsValue(w)
  {
    assert w + "." + "5" == w + ".5";
    SplitFraction(w, "5");
    HalfPrefix(w);
    HalfDecimal(DigitsValue(w));
  }

  /** "<w>.<f>" splits into its digits before and after the point, with nothing after them. */
  lemma {:induction false} SplitFraction(w: string, f: string)
    requires AllDigits(w) && w != [] && AllDigits(f)
    ensures SplitNumber(w + "." + f) == NumberText(false, w, f, [])
  {
    var s := w + "." + f;
    assert s == w + ("." + f);
    assert s[0] == w[0] && !IsPhpSpace(s[0]) && !IsSignChar(s[0]);
    assert SkipSpace(s) == s;
    LeadingDigitsStop(w, "." + f);
    var rest := s[|w|..];
    assert rest == "." + f && rest[1..] == f;
    LeadingDigitsOfDigits(f);
    assert rest[1 + |f|..] == [];
  }

  lemma {:induction false} HalfPrefix(w: string)
    requires AllDigits(w) && w != []
    ensures NumericPrefix(w + ".5") == Decimal(false, DigitsValue(w) * 10 + 5, -1)
  {
    var s := w + "." + "5";
    assert s == w + ".5";
    assert AllDigits(w + "5") && NumericPrefix(s) == Decimal(false, DigitsValue(w + "5"), -1) by {
      FractionPrefix(w, "5");
    }
    assert DigitsValue(w + "5") == DigitsValue(w) * 10 + 5 by {
      assert (w + "5")[..|w|] == w;
    }
  }

  /** A mantissa ending in 5, one place after the point. */
  lemma HalfDecimal(a: nat)
    ensures Truncate(Decimal(false, a * 10 + 5, -1)) == a
    ensures DecimalValue(Decimal(false, a * 10 + 5, -1)) == a as real + 0.5
  {
    assert Pow10(1) == 10;
    DivPlus(a, 5, 10);
  }

  /** Digits followed by text that starts no fraction or exponent read as the digits alone ("3abc" is 3). */
  lemma {:induction false} DigitsThenText(ds: string, rest: string)
    requires AllDigits(ds) && ds != []
    requires rest == [] || (!IsDigit(rest[0]) && rest[0] != '.' && rest[0] != 'e' && rest[0] != 'E')
    ensures NumericPrefix(ds + rest) == Decimal(false, DigitsValue(ds), 0)
    ensures IntCast(ds + rest) == DigitsValue(ds) && SqlNumber(ds + rest) == DigitsValue(ds) as real
  {
    var s := ds + rest;
    assert s[0] == ds[0] && !IsPhpSpace(s[0]) && !IsSignChar(s[0]);
    assert SkipSpace(s) == s;
    LeadingDigitsStop(ds, rest);
    assert s[|ds|..] == rest;
    assert ds + [] == ds;
  }


  /** Digits followed by text that starts no fraction split into the digits and that text. */
  lemma {:induction false} SplitDigitsThenText(ds: string, rest: string)
    requires AllDigits(ds) && ds != []
    requires rest == [] || (!IsDigit(rest[0]) && rest[0] != '.')
    ensures SplitNumber(ds + rest) == NumberText(false, ds, [], rest)
  {
    var s := ds + rest;
    assert s[0] == ds[0] && !IsPhpSpace(s[0]) && !IsSignChar(s[0]);
    assert SkipSpace(s) == s;
    LeadingDigitsStop(ds, rest);
    assert s[|ds|..] == rest;
  }

  /** A plain run of digits is numeric. */
  lemma DigitsAreNumeric(ds: string)
    requires AllDigits(ds) && ds != []
    ensures IsNumeric(ds)
  {
    SplitDigitsThenText(ds, []);
    assert ds + [] == ds;
  }

  /** Digits followed by a character that starts neither a fraction nor an exponent are not numeric ("2017-03-01"). */
  lemma DigitsThenTextNotNumeric(ds: string, rest: string)
    requires AllDigits(ds) && ds != []
    requires rest != [] && !IsDigit(rest[0]) && rest[0] != '.' && rest[0] != 'e' && rest[0] != 'E'
    ensures !IsNumeric(ds + rest)
  {
    SplitDigitsThenText(ds, rest);
  }

  /** A text that starts with a character no number can start with is not numeric ("$150"). */
  lemma NoDigitAtHeadNotNumeric(s: string)
    requires s != [] && !IsPhpSpace(s[0]) && !IsSignChar(s[0]) && !IsDigit(s[0]) && s[0] != '.'
    ensures !IsNumeric(s)
  {
    assert SkipSpace(s) == s;
  }

  /** A text without a digit is not numeric. */
  lemma NoDigitNotNumeric(s: string)
    requires forall i :: 0 <= i < |s| ==> !IsDigit(s[i])
    ensures !IsNumeric(s)
  {
    var t := SkipSpace(s);
    var u := if t != [] && IsSignChar(t[0]) then t[1..] else t;
    assert u == s[|s| - |u|..];
    if u != [] {
      assert u[0] == s[|s| - |u|];
    }
    if |u| >= 2 {
      assert u[1] == s[|s| - |u| + 1];
    }
    NoNumberAtHead(u);
    assert u[0..] == u;
  }

  /** No digit in the first two places: no integer digits, and none after a leading point. */
  lemma NoNumberAtHead(u: string)
    requires u == [] || !IsDigit(u[0])
    requires |u| < 2 || !IsDigit(u[1])
    ensures LeadingDigits(u) == []
    ensures u != [] && u[0] == '.' ==> LeadingDigits(u[1..]) == []
  {
    if |u| >= 2 {
      assert u[1..][0] == u[1];
    }
  }

  /** "<w>e<x>": the exponent shifts the digits, for the cast and the database alike. */
  lemma {:induction false} ExponentReading(w: string, x: string)
    requires AllDigits(w) && w != [] && AllDigits(x)
    ensures NumericPrefix(w + "e" + x) == Decimal(false, DigitsValue(w), DigitsValue(x))
    ensures IntCast(w + "e" + x) == DigitsValue(w) * Pow10(DigitsValue(x))
    ensures SqlNumber(w + "e" + x) == (DigitsValue(w) * Pow10(DigitsValue(x))) as real
  {
    var s := w + "e" + x;
    assert s == w + ("e" + x);
    assert s[0] == w[0] && !IsPhpSpace(s[0]) && !IsSignChar(s[0]);
    assert SkipSpace(s) == s;
    LeadingDigitsStop(w, "e" + x);
    var rest := s[|w|..];
    assert rest == "e" + x && rest[1..] == x;
    ExponentOfDigits(x);
    assert ExponentPart(rest) == DigitsValue(x);
    assert w + [] == w;
    var d := Decimal(false, DigitsValue(w), DigitsValue(x));
    assert NumericPrefix(s) == d;
  }

  lemma {:induction false} ExponentOfDigits(x: string)
    requires AllDigits(x)
    ensures ExponentPart("e" + x) == DigitsValue(x)
  {
    assert ("e" + x)[1..] == x;
    if x != [] {
      assert !IsSignChar(x[0]);
    }
    LeadingDigitsOfDigits(x);
  }

  lemma {:induction false} FractionPrefix(w: string, f: string)
    requires AllDigits(w) && w != [] && AllDigits(f)
    ensures AllDigits(w + f)
    ensures NumericPrefix(w + "." + f) == Decimal(false, DigitsValue(w + f), 0 - |f|)
  {
    SplitFraction(w, f);
    DigitsValueAppend(w, f);
  }

  /** "<w>.<f>": the database keeps the fraction and the cast drops it. */
  lemma {:induction false} FractionReading(w: string, f: string)
    requires AllDigits(w) && w != [] && AllDigits(f)
    ensures AllDigits(w + f)
    ensures IntCast(w + "." + f) == DigitsValue(w)
    ensures SqlNumber(w + "." + f) == DigitsValue(w + f) as real / Pow10(|f|) as real
  {
    var s := w + "." + f;
    FractionPrefix(w, f);
    DigitsValueAppend(w, f);
    DigitsValueBound(f);
    var a, b, n := DigitsValue(w), DigitsValue(f), |f|;
    var m := DigitsValue(w + f);
    assert m == a * Pow10(n) + b;
    DecimalOfFraction(a, b, n);
    var d := Decimal(false, m, 0 - n);
    assert NumericPrefix(s) == d;
    assert IntCast(s) == Truncate(d) == a;
    assert SqlNumber(s) == DecimalValue(d);
  }

  lemma DecimalOfFraction(a: nat, b: nat, n: nat)
    requires b < Pow10(n)
    ensures Truncate(Decimal(false, a * Pow10(n) + b, 0 - n)) == a
    ensures DecimalValue(Decimal(false, a * Pow10(n) + b, 0 - n)) == (a * Pow10(n) + b) as real / Pow10(n) as real
  {
    if n == 0 {
      assert b == 0;
    } else {
      DivPlus(a, b, Pow10(n));
    }
  }

  /** Decimal rendering of a natural number, as PHP interpolates an int. */
  function NatToString(n: nat): (s: string)
    ensures s != [] && AllDigits(s)
  {
    if n < 10 then [DigitChar(n)] else NatToString(n / 10) + [DigitChar(n % 10)]
  }

  /** Decimal rendering of an integer, with a minus sign when negative. */
  function IntToString(n: int): string {
    if n < 0 then "-" + NatToString(-n) else NatToString(n)
  }

  lemma {:induction false} NatToStringValue(n: nat)
    ensures DigitsValue(NatToString(n)) == n
  {
    var s := NatToString(n);
    if n >= 10 {
      assert s[..|s| - 1] == NatToString(n / 10);
      NatToStringValue(n / 10);
    } else {
      assert s[..0] == [];
    }
  }

  /** A number has at most `k` digits exactly when it is below 10^k. */
  lemma {:induction false} NatToStringLength(n: nat, k: nat)
    requires k >= 1
    ensures |NatToString(n)| <= k <==> n < Pow10(k)
  {
    if n >= 10 {
      if k == 1 {
        assert Pow10(1) == 10;
      } else {
        NatToStringLength(n / 10, k - 1);
        assert n / 10 < Pow10(k - 1) <==> n < Pow10(k);
      }
    } else {
      assert Pow10(k) >= 10 by {
        assert Pow10(k) == 10 * Pow10(k - 1);
      }
    }
  }

  /** The key a dropdown submits for an integer option casts back to that integer. */
  lemma {:induction false} IntCastOfNatToString(n: nat)
    ensures IntCast(NatToString(n)) == n
  {
    DigitsReading(NatToString(n));
    NatToStringValue(n);
  }

  // ---------------------------------------------------------------------
  // Order-preserving list operations (DataList::filter / sort / limit)
  // ---------------------------------------------------------------------

  /** `r` is obtained from `s` by deleting elements, keeping the order. */
  predicate SubsequenceOf<T(==)>(r: seq<T>, s: seq<T>)
    decreases |s|
  {
    if r == [] then true
    else if s == [] then false
    else if r[0] == s[0] then SubsequenceOf(r[1..], s[1..])
    else SubsequenceOf(r, s[1..])
  }

  /** A subsequence of `t` is one of `t` with an element put in front. */
  lemma {:induction false} SubsequenceWeaken<T>(r: seq<T>, t: seq<T>, x: T)
    requires SubsequenceOf(r, t)
    ensures SubsequenceOf(r, [x] + t)
    decreases |t|, 1
  {
    assert ([x] + t)[1..] == t;
    if r != [] && r[0] == x {
      SubsequenceDropHead(r, t);
    }
  }

  /** Dropping the first element of a subsequence leaves a subsequence. */
  lemma {:induction false} SubsequenceDropHead<T>(r: seq<T>, t: seq<T>)
    requires r != [] && SubsequenceOf(r, t)
    ensures SubsequenceOf(r[1..], t)
    decreases |t|, 0
  {
    assert [t[0]] + t[1..] == t;
    if r[0] == t[0] {
      SubsequenceWeaken(r[1..], t[1..], t[0]);
    } else {
      SubsequenceDropHead(r, t[1..]);
      SubsequenceWeaken(r[1..], t[1..], t[0]);
    }
  }

  /** A subsequence of a subsequence is a subsequence. */
  lemma {:induction false} SubsequenceTransitive<T>(a: seq<T>, b: seq<T>, c: seq<T>)
    requires SubsequenceOf(a, b) && SubsequenceOf(b, c)
    ensures SubsequenceOf(a, c)
    decreases |c|
  {
    if a != [] && b != [] && c != [] {
      if b[0] == c[0] {
        if a[0] == b[0] {
          SubsequenceTransitive(a[1..], b[1..], c[1..]);
        } else {
          SubsequenceTransitive(a, b[1..], c[1..]);
        }
      } else {
        SubsequenceTransitive(a, b, c[1..]);
        SubsequenceWeaken(a, c[1..], c[0]);
        assert [c[0]] + c[1..] == c;
      }
    }
  }

  lemma {:induction false} SubsequenceReflexive<T>(s: seq<T>)
    ensures SubsequenceOf(s, s)
  {
    if s != [] {
      SubsequenceReflexive(s[1..]);
    }
  }

  /** The elements of `s` that satisfy `p`, in their original order. */
  function Filter<T(==,!new)>(s: seq<T>, p: T -> bool): (r: seq<T>)
    ensures |r| <= |s|
    ensures forall x :: x in r <==> x in s && p(x)
  {
    if s == [] then []
    else if p(s[0]) then [s[0]] + Filter(s[1..], p)
    else Filter(s[1..], p)
  }

  lemma {:induction false} FilterIsSubsequence<T(!new)>(s: seq<T>, p: T -> bool)
    ensures SubsequenceOf(Filter(s, p), s)
  {
    if s != [] {
      FilterIsSubsequence(s[1..], p);
      if p(s[0]) {
        assert Filter(s, p)[1..] == Filter(s[1..], p);
      }
    }
  }

  function And<T>(p: T -> bool, q: T -> bool): T -> bool {
    x => p(x) && q(x)
  }

  /** Two filters in a row keep exactly the elements that pass both. */
  lemma {:induction false} FilterFilter<T(!new)>(s: seq<T>, p: T -> bool, q: T -> bool)
    ensures Filter(Filter(s, p), q) == Filter(s, And(p, q))
  {
    if s != [] {
      FilterFilter(s[1..], p, q);
    }
  }

  /** Filters by predicates that agree on every element give the same list. */
  lemma {:induction false} FilterExt<T(!new)>(s: seq<T>, p: T -> bool, q: T -> bool)
    requires forall x :: x in s ==> (p(x) <==> q(x))
    ensures Filter(s, p) == Filter(s, q)
  {
    if s != [] {
      FilterExt(s[1..], p, q);
    }
  }

  /** Filtering by a predicate that every element satisfies changes nothing. */
  lemma {:induction false} FilterAll<T(!new)>(s: seq<T>, p: T -> bool)
    requires forall x :: x in s ==> p(x)
    ensures Filter(s, p) == s
  {
    if s != [] {
      FilterAll(s[1..], p);
    }
  }

  /** Filtering by a predicate that no element satisfies leaves nothing. */
  lemma {:induction false} FilterNone<T(!new)>(s: seq<T>, p: T -> bool)
    requires forall x :: x in s ==> !p(x)
    ensures Filter(s, p) == []
  {
    if s != [] {
      FilterNone(s[1..], p);
    }
  }

  lemma {:induction false} FilterAppend<T(!new)>(a: seq<T>, b: seq<T>, p: T -> bool)
    ensures Filter(a + b, p) == Filter(a, p) + Filter(b, p)
  {
    if a != [] {
      assert (a + b)[1..] == a[1..] + b;
      FilterAppend(a[1..], b, p);
    } else {
      assert a + b == b;
    }
  }

  lemma RemoveAt<T>(t: seq<T>, i: int)
    requires 0 <= i < |t|
    ensures multiset(t) == multiset(t[..i] + t[i + 1..]) + multiset{t[i]}
    ensures t == t[..i] + ([t[i]] + t[i + 1..])
  {
    assert t == t[..i] + [t[i]] + t[i + 1..];
  }

  /** Reordering a list does not change how many of its elements a filter keeps. */
  lemma {:induction false} FilterCountPermutation<T(!new)>(s: seq<T>, t: seq<T>, p: T -> bool)
    requires multiset(s) == multiset(t)
    ensures |Filter(s, p)| == |Filter(t, p)|
    decreases |s|
  {
    if s == [] {
      assert |t| == |multiset(t)| == |multiset(s)| == 0;
    } else {
      assert s[0] in multiset(t) by { assert s[0] in multiset(s); }
      var i :| 0 <= i < |t| && t[i] == s[0];
      var rest := t[..i] + t[i + 1..];
      RemoveHeadMatch(s, t, i);
      FilterCountPermutation(s[1..], rest, p);
      FilterCountRemove(t, i, p);
    }
  }

  /** Taking the head of `s` and its match in `t` away leaves two permutations. */
  lemma RemoveHeadMatch<T>(s: seq<T>, t: seq<T>, i: int)
    requires multiset(s) == multiset(t) && s != [] && 0 <= i < |t| && t[i] == s[0]
    ensures multiset(s[1..]) == multiset(t[..i] + t[i + 1..])
  {
    RemoveAt(t, i);
    assert s == [s[0]] + s[1..];
    assert multiset(s) == multiset(s[1..]) + multiset{s[0]};
    assert multiset(s[1..]) == multiset(s) - multiset{s[0]};
    assert multiset(t[..i] + t[i + 1..]) == multiset(t) - multiset{t[i]};
  }

  /** Taking one element away takes it out of the filter's count, if the filter kept it. */
  lemma FilterCountRemove<T(!new)>(t: seq<T>, i: int, p: T -> bool)
    requires 0 <= i < |t|
    ensures |Filter(t, p)| == |Filter(t[..i] + t[i + 1..], p)| + (if p(t[i]) then 1 else 0)
  {
    RemoveAt(t, i);
    FilterAppend(t[..i], [t[i]] + t[i + 1..], p);
    FilterAppend([t[i]], t[i + 1..], p);
    FilterAppend(t[..i], t[i + 1..], p);
  }

  /** The elements of `s` without repeats, each where it first occurs (SELECT DISTINCT). */
  function Dedupe<T(==,!new)>(s: seq<T>): (r: seq<T>)
    ensures |r| <= |s|
    ensures forall x :: x in r <==> x in s
    ensures forall i, j :: 0 <= i < j < |r| ==> r[i] != r[j]
  {
    if s == [] then []
    else
      var d := Dedupe(s[..|s| - 1]);
      assert forall x :: x in s <==> x in s[..|s| - 1] || x == s[|s| - 1] by {
        assert s == s[..|s| - 1] + [s[|s| - 1]];
      }
      if s[|s| - 1] in d then d else d + [s[|s| - 1]]
  }

  /**
   * Without repeats, a list ordered by a key that tells its elements apart
   * is strictly ordered by that key.
   */
  lemma {:induction false} DedupeAscending<T(!new)>(s: seq<T>, key: T -> int)
    requires forall i, j :: 0 <= i < j < |s| ==> key(s[i]) <= key(s[j])
    requires forall x, y :: x in s && y in s && key(x) == key(y) ==> x == y
    ensures forall i, j :: 0 <= i < j < |Dedupe(s)| ==> key(Dedupe(s)[i]) < key(Dedupe(s)[j])
  {
    if s != [] {
      var init, last := s[..|s| - 1], s[|s| - 1];
      DedupeAscending(init, key);
      var d := Dedupe(init);
      if last !in d {
        var r := d + [last];
        forall i, j | 0 <= i < j < |r| ensures key(r[i]) < key(r[j]) {
          if j == |r| - 1 {
            assert r[i] in init;
            var k :| 0 <= k < |init| && init[k] == r[i];
            assert init[k] == s[k];
            assert r[i] != last;
          } else {
            assert r[i] == d[i] && r[j] == d[j];
          }
        }
      }
    }
  }

  /** `s` is ordered by `key`, largest first. */
  ghost predicate DescendingBy<T>(s: seq<T>, key: T -> int) {
    forall i, j :: 0 <= i < j < |s| ==> key(s[i]) >= key(s[j])
  }

  /** Filtering keeps the order of what it keeps. */
  lemma {:induction false} FilterKeepsDescending<T(!new)>(s: seq<T>, p: T -> bool, key: T -> int)
    requires DescendingBy(s, key)
    ensures DescendingBy(Filter(s, p), key)
  {
    if s != [] {
      var rest := Filter(s[1..], p);
      assert DescendingBy(s[1..], key) by {
        forall i, j | 0 <= i < j < |s[1..]| ensures key(s[1..][i]) >= key(s[1..][j]) {
          assert s[1..][i] == s[i + 1] && s[1..][j] == s[j + 1];
        }
      }
      FilterKeepsDescending(s[1..], p, key);
      if p(s[0]) {
        var r := [s[0]] + rest;
        forall i, j | 0 <= i < j < |r| ensures key(r[i]) >= key(r[j]) {
          if i == 0 {
            assert r[j] in s[1..];
            var k :| 0 <= k < |s[1..]| && s[1..][k] == r[j];
            assert s[1..][k] == s[k + 1];
          } else {
            assert r[i] == rest[i - 1] && r[j] == rest[j - 1];
          }
        }
      }
    }
  }

  /**
   * `limit(n)`: the first `n` elements; a limit of 0 is treated by the
   * query builder as "no limit".
   */
  function Limit<T>(s: seq<T>, n: nat): (r: seq<T>)
    ensures n == 0 ==> r == s
    ensures n > 0 ==> |r| == if n < |s| then n else |s|
    ensures r == s[..|r|]
  {
    if n == 0 || |s| <= n then s else s[..n]
  }

  // ---------------------------------------------------------------------
  // sort(): a stable insertion sort on an integer key
  // ---------------------------------------------------------------------

  ghost predicate SortedBy<T>(s: seq<T>, key: T -> int) {
    forall i, j :: 0 <= i < j < |s| ==> key(s[i]) <= key(s[j])
  }

  function Insert<T>(x: T, s: seq<T>, key: T -> int): seq<T> {
    if s == [] || key(x) <= key(s[0]) then [x] + s
    else [s[0]] + Insert(x, s[1..], key)
  }

  /** Ascending order of `key`; elements with equal keys keep their order. */
  function SortBy<T>(s: seq<T>, key: T -> int): seq<T> {
    if s == [] then [] else Insert(s[0], SortBy(s[1..], key), key)
  }

  /** Descending order of `key`, as `sort('Field DESC')`. */
  function SortByDesc<T>(s: seq<T>, key: T -> int): seq<T> {
    SortBy(s, x => -key(x))
  }

  lemma {:induction false} InsertLowerBound<T>(x: T, s: seq<T>, key: T -> int, k: int)
    requires key(x) >= k
    requires forall i :: 0 <= i < |s| ==> key(s[i]) >= k
    ensures forall i :: 0 <= i < |Insert(x, s, key)| ==> key(Insert(x, s, key)[i]) >= k
  {
    if s != [] && key(x) > key(s[0]) {
      InsertLowerBound(x, s[1..], key, k);
    }
  }

  lemma {:induction false} InsertSorted<T>(x: T, s: seq<T>, key: T -> int)
    requires SortedBy(s, key)
    ensures SortedBy(Insert(x, s, key), key)
  {
    if s != [] && key(x) > key(s[0]) {
      var r := Insert(x, s[1..], key);
      InsertSorted(x, s[1..], key);
      InsertLowerBound(x, s[1..], key, key(s[0]));
      var t := [s[0]] + r;
      forall i, j | 0 <= i < j < |t| ensures key(t[i]) <= key(t[j]) {
        if i > 0 {
          assert t[i] == r[i - 1] && t[j] == r[j - 1];
        }
      }
    }
  }

  lemma {:induction false} InsertPermutes<T>(x: T, s: seq<T>, key: T -> int)
    ensures multiset(Insert(x, s, key)) == multiset(s) + multiset{x}
  {
    if s != [] && key(x) > key(s[0]) {
      InsertPermutes(x, s[1..], key);
      assert s == [s[0]] + s[1..];
    }
  }

  /** sort() returns a permutation of its input, ordered by the key. */
  lemma {:induction false} SortByFacts<T>(s: seq<T>, key: T -> int)
    ensures SortedBy(SortBy(s, key), key)
    ensures multiset(SortBy(s, key)) == multiset(s)
  {
    if s != [] {
      SortByFacts(s[1..], key);
      InsertSorted(s[0], SortBy(s[1..], key), key);
      InsertPermutes(s[0], SortBy(s[1..], key), key);
      assert s == [s[0]] + s[1..];
    }
  }

  lemma SortByDescFacts<T>(s: seq<T>, key: T -> int)
    ensures DescendingBy(SortByDesc(s, key), key)
    ensures multiset(SortByDesc(s, key)) == multiset(s)
  {
    var neg := x => -key(x);
    SortByFacts(s, neg);
    var r := SortByDesc(s, key);
    forall i, j | 0 <= i < j < |r| ensures key(r[i]) >= key(r[j]) {
      assert neg(r[i]) <= neg(r[j]);
    }
  }

  // ---------------------------------------------------------------------
  // PaginatedList: a list with a page length and the GET variable holding
  // the offset of the first item shown
  // ---------------------------------------------------------------------

  datatype PaginatedList<T> = PaginatedList(list: seq<T>, pageLength: nat, getVar: string)

  /** PaginatedList's default offset variable. */
  const DefaultPaginationVar: string := "start"
}
