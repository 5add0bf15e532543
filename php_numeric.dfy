/**
 * is_numeric() and the (int) cast, as they apply to a value that trim()
 * has already cleaned: an optional sign, a decimal mantissa with an
 * optional fraction, and an optional exponent. The cast is taken as the
 * exact decimal value truncated toward zero.
 */
module PhpNumeric {
  import opened Wrappers

  predicate IsDigit(c: char) {
    '0' <= c <= '9'
  }

  predicate AllDigits(s: string) {
    forall i :: 0 <= i < |s| ==> IsDigit(s[i])
  }

  /** The length of the run of digits that s starts with. */
  function DigitRun(s: string): (n: nat)
    ensures n <= |s| && AllDigits(s[..n])
    ensures n < |s| ==> !IsDigit(s[n])
  {
    if s != [] && IsDigit(s[0]) then 1 + DigitRun(s[1..]) else 0
  }

  /** The value of a string of decimal digits, most significant first. */
  function DigitsValue(d: string): nat
    requires AllDigits(d)
  {
    if d == [] then 0 else 10 * DigitsValue(d[..|d| - 1]) + (d[|d| - 1] as int - '0' as int)
  }

  function Pow10(e: nat): (p: nat)
    ensures p >= 1
  {
    if e == 0 then 1 else 10 * Pow10(e - 1)
  }

  /** A numeric string taken apart: sign, whole digits, fraction digits and exponent. */
  datatype Numeral = Numeral(negative: bool, whole: string, fraction: string, exponent: int)

  predicate IsSign(c: char) {
    c == '+' || c == '-'
  }

  /** The exponent part `[eE][+-]?digits`, or the empty string for exponent 0. */
  function ParseExponent(v: string): Option<int> {
    if v == [] then Some(0)
    else if v[0] != 'e' && v[0] != 'E' then None
    else
      var w := v[1..];
      var signed := |w| > 0 && IsSign(w[0]);
      var digits := if signed then w[1..] else w;
      if digits != [] && AllDigits(digits) then
        var magnitude: int := DigitsValue(digits);
        Some(if signed && w[0] == '-' then -magnitude else magnitude)
      else None
  }

  /**
   * The numeric-string grammar, `[+-]?(D+ | D+.D* | .D+)([eE][+-]?D+)?`,
   * read left to right: sign, whole digits, dot, fraction digits (only
   * after a dot), exponent. The mantissa needs at least one digit.
   */
  function ParseNumeral(s: string): (r: Option<Numeral>)
    ensures r.Some? ==> AllDigits(r.value.whole) && AllDigits(r.value.fraction)
    ensures r.Some? ==> |r.value.whole| + |r.value.fraction| > 0
    ensures r.Some? ==> s != [] && (IsSign(s[0]) || IsDigit(s[0]) || s[0] == '.')
  {
    var p := Pieces(s);
    PiecesShape(s);
    PiecesStart(s);
    Assemble(p.sign == "-", p.whole, p.fraction, p.rest)
  }

  /** The numeral of the pieces read, if the mantissa has a digit and the rest is an exponent. */
  function Assemble(negative: bool, whole: string, fraction: string, rest: string): (r: Option<Numeral>)
    ensures r.Some? ==> r.value.whole == whole && r.value.fraction == fraction
    ensures r.Some? ==> |whole| + |fraction| > 0
  {
    if |whole| + |fraction| == 0 then None
    else match ParseExponent(rest)
      case None => None
      case Some(e) => Some(Numeral(negative, whole, fraction, e))
  }

  /** A string cut at the grammar's boundaries; the rest is what follows the fraction. */
  datatype Cut = Cut(sign: string, whole: string, dot: string, fraction: string, rest: string)

  /** Where the optional sign that s starts with ends. */
  function SignEnd(s: string): (i: nat)
    ensures i <= |s|
  {
    if |s| > 0 && IsSign(s[0]) then 1 else 0
  }

  /** Where the run of digits starting at i ends. */
  function DigitsEnd(s: string, i: nat): (j: nat)
    requires i <= |s|
    ensures i <= j <= |s|
  {
    i + DigitRun(s[i..])
  }

  /** Where an optional dot at j ends. */
  function DotEnd(s: string, j: nat): (k: nat)
    requires j <= |s|
    ensures j <= k <= |s|
  {
    if j < |s| && s[j] == '.' then j + 1 else j
  }

  /** The sign, whole digits, dot and fraction digits s starts with, and what follows them. */
  function Pieces(s: string): Cut {
    var i := SignEnd(s);
    var j := DigitsEnd(s, i);
    var k := DotEnd(s, j);
    var l := if k > j then DigitsEnd(s, k) else k;
    Cut(s[..i], s[i..j], s[j..k], s[k..l], s[l..])
  }

  /** Each piece has the shape its name says. */
  lemma PiecesShape(s: string)
    ensures var p := Pieces(s);
      (p.sign == "" || p.sign == "+" || p.sign == "-") &&
      AllDigits(p.whole) && AllDigits(p.fraction) && (p.dot == "" || p.dot == ".") &&
      (p.dot == "" ==> p.fraction == "")
  {
    var i := SignEnd(s);
    var j := DigitsEnd(s, i);
    var k := DotEnd(s, j);
    if i == 1 {
      assert s[..i] == [s[0]];
    }
    RunDigits(s, i);
    if k > j {
      assert s[j..k] == [s[j]];
      RunDigits(s, k);
    }
  }

  /** A string whose mantissa has a digit starts with a sign, a digit or a dot. */
  lemma PiecesStart(s: string)
    ensures var p := Pieces(s);
      |p.whole| + |p.fraction| > 0 ==> s != [] && (IsSign(s[0]) || IsDigit(s[0]) || s[0] == '.')
  {
    var i := SignEnd(s);
    var j := DigitsEnd(s, i);
    if i == 0 && j > 0 {
      RunDigits(s, i);
      assert s[0] == s[i..j][0];
    }
  }

  /** Pieces() cuts at the boundaries its index functions give. */
  lemma PiecesAt(s: string, i: nat, j: nat, k: nat, l: nat)
    requires i == SignEnd(s) && j == DigitsEnd(s, i) && k == DotEnd(s, j)
    requires l == if k > j then DigitsEnd(s, k) else k
    ensures Pieces(s) == Cut(s[..i], s[i..j], s[j..k], s[k..l], s[l..])
  {
  }

  /** The run of digits starting at i is all digits. */
  lemma RunDigits(s: string, i: nat)
    requires i <= |s|
    ensures AllDigits(s[i..DigitsEnd(s, i)])
  {
    assert s[i..][..DigitRun(s[i..])] == s[i..DigitsEnd(s, i)];
  }

  /** A prefix and the slice after it make a longer prefix. */
  lemma PrefixJoin(s: string, i: nat, j: nat)
    requires i <= j <= |s|
    ensures s[..i] + s[i..j] == s[..j]
  {
  }

  /** A prefix and the rest make the string. */
  lemma PrefixRest(s: string, i: nat)
    requires i <= |s|
    ensures s[..i] + s[i..] == s
  {
  }

  /** Concatenation regrouped: x + (y + (z + w)) is x + y + z + w. */
  lemma Regroup(x: string, y: string, z: string, w: string)
    ensures x + (y + (z + w)) == x + y + z + w
    ensures x + (y + z) == x + y + z
  {
  }

  /** The pieces put back together are the string. */
  lemma PiecesJoin(s: string)
    ensures var p := Pieces(s); s == p.sign + p.whole + p.dot + p.fraction + p.rest
  {
    var p := Pieces(s);
    var i := |p.sign|;
    var j := i + |p.whole|;
    var k := j + |p.dot|;
    var l := k + |p.fraction|;
    PrefixJoin(s, i, j);
    PrefixJoin(s, j, k);
    PrefixJoin(s, k, l);
    PrefixRest(s, l);
  }

  /** A non-empty run of digits. */
  predicate DigitsNonEmpty(s: string) {
    s != [] && AllDigits(s)
  }

  /** The exponent part as the grammar writes it: nothing, or `e` or `E`, an optional sign, then digits. */
  predicate ExponentForm(v: string) {
    v == [] ||
    ((v[0] == 'e' || v[0] == 'E') &&
     (DigitsNonEmpty(v[1..]) || (|v| > 1 && IsSign(v[1]) && DigitsNonEmpty(v[2..]))))
  }

  /**
   * A numeric string cut into its pieces: an optional sign, the whole
   * digits, an optional dot, the fraction digits (only after a dot), and
   * the exponent part; the mantissa holds at least one digit.
   */
  predicate NumericForm(sign: string, whole: string, dot: string, fraction: string, exp: string) {
    (sign == "" || sign == "+" || sign == "-") &&
    AllDigits(whole) && (dot == "" || dot == ".") && AllDigits(fraction) &&
    (dot == "" ==> fraction == "") && |whole| + |fraction| > 0 && ExponentForm(exp)
  }

  /** The exponent parser accepts exactly the exponent part of the grammar. */
  lemma ExponentFormIff(v: string)
    ensures ParseExponent(v).Some? <==> ExponentForm(v)
  {
    if v != [] && (v[0] == 'e' || v[0] == 'E') && |v| > 1 && IsSign(v[1]) {
      assert v[1..][1..] == v[2..];
      assert !IsDigit(v[1..][0]);
    }
  }

  /** A run of digits followed by a non-digit ends where the digits end. */
  lemma {:induction false} DigitRunStops(a: string, b: string)
    requires AllDigits(a) && (b == [] || !IsDigit(b[0]))
    ensures DigitRun(a + b) == |a|
  {
    if a != [] {
      assert (a + b)[0] == a[0] && (a + b)[1..] == a[1..] + b;
      DigitRunStops(a[1..], b);
    } else {
      assert a + b == b;
    }
  }

  /** Cutting a string of the grammar gives back its pieces. */
  lemma PiecesOf(sign: string, whole: string, dot: string, fraction: string, exp: string)
    requires NumericForm(sign, whole, dot, fraction, exp)
    ensures Pieces(sign + whole + dot + fraction + exp) == Cut(sign, whole, dot, fraction, exp)
  {
    var i, j := |sign|, |sign| + |whole|;
    var k := j + |dot|;
    Boundaries(sign, whole, dot, fraction, exp);
    PiecesAt(sign + whole + dot + fraction + exp, i, j, k, k + |fraction|);
    CutAt(sign, whole, dot, fraction, exp);
  }

  /** The index functions stop at the boundaries between the pieces of a string of the grammar. */
  lemma Boundaries(sign: string, whole: string, dot: string, fraction: string, exp: string)
    requires NumericForm(sign, whole, dot, fraction, exp)
    ensures var x := sign + whole + dot + fraction + exp;
      var i, j := |sign|, |sign| + |whole|;
      var k := j + |dot|;
      SignEnd(x) == i && DigitsEnd(x, i) == j && DotEnd(x, j) == k &&
      (if k > j then DigitsEnd(x, k) else k) == k + |fraction|
  {
    SignEndOf(sign, whole, dot, fraction, exp);
    WholeEndOf(sign, whole, dot, fraction, exp);
    DotEndOf(sign, whole, dot, fraction, exp);
    if dot == "." {
      FractionEndOf(sign, whole, dot, fraction, exp);
    }
  }

  lemma WholeEndOf(sign: string, whole: string, dot: string, fraction: string, exp: string)
    requires NumericForm(sign, whole, dot, fraction, exp)
    ensures DigitsEnd(sign + whole + dot + fraction + exp, |sign|) == |sign| + |whole|
  {
    Tails(sign, whole, dot, fraction, exp);
    DigitRunStops(whole, dot + fraction + exp);
  }

  lemma FractionEndOf(sign: string, whole: string, dot: string, fraction: string, exp: string)
    requires NumericForm(sign, whole, dot, fraction, exp) && dot == "."
    ensures DigitsEnd(sign + whole + dot + fraction + exp, |sign| + |whole| + |dot|) == |sign| + |whole| + |dot| + |fraction|
  {
    Tails(sign, whole, dot, fraction, exp);
    DigitRunStops(fraction, exp);
  }

  lemma SignEndOf(sign: string, whole: string, dot: string, fraction: string, exp: string)
    requires NumericForm(sign, whole, dot, fraction, exp)
    ensures SignEnd(sign + whole + dot + fraction + exp) == |sign|
  {
    var x := sign + whole + dot + fraction + exp;
    Tails(sign, whole, dot, fraction, exp);
    if sign == "" {
      assert x[0] == x[|sign|..][0];
    }
  }

  lemma DotEndOf(sign: string, whole: string, dot: string, fraction: string, exp: string)
    requires NumericForm(sign, whole, dot, fraction, exp)
    ensures DotEnd(sign + whole + dot + fraction + exp, |sign| + |whole|) == |sign| + |whole| + |dot|
  {
    var x := sign + whole + dot + fraction + exp;
    var j := |sign| + |whole|;
    Tails(sign, whole, dot, fraction, exp);
    if j < |x| {
      assert x[j] == x[j..][0];
    }
  }

  /** The slices of a concatenation of five strings at their boundaries. */
  lemma CutAt(a: string, b: string, c: string, d: string, e: string)
    ensures var x := a + b + c + d + e;
      var i, j, k, l := |a|, |a| + |b|, |a| + |b| + |c|, |a| + |b| + |c| + |d|;
      x[..i] == a && x[i..j] == b && x[j..k] == c && x[k..l] == d && x[l..] == e
  {
  }

  /** The suffixes of a concatenation of five strings at their boundaries. */
  lemma Tails(a: string, b: string, c: string, d: string, e: string)
    ensures var x := a + b + c + d + e;
      x[|a|..] == b + (c + d + e) && x[|a| + |b|..] == c + d + e && x[|a| + |b| + |c|..] == d + e
  {
    var x := a + b + c + d + e;
    assert x == a + (b + (c + d + e));
    assert x == a + b + (c + d + e);
  }

  /** Every string the grammar describes parses, into exactly its pieces. */
  lemma ParseNumeralComplete(sign: string, whole: string, dot: string, fraction: string, exp: string)
    requires NumericForm(sign, whole, dot, fraction, exp)
    ensures ParseExponent(exp).Some?
    ensures ParseNumeral(sign + whole + dot + fraction + exp) ==
      Some(Numeral(sign == "-", whole, fraction, ParseExponent(exp).value))
  {
    ExponentFormIff(exp);
    PiecesOf(sign, whole, dot, fraction, exp);
  }

  /** Every string that parses is a string of the grammar, and the numeral holds its pieces. */
  lemma ParseNumeralSound(s: string)
    requires ParseNumeral(s).Some?
    ensures var n := ParseNumeral(s).value;
      exists sign, dot, exp :: NumericForm(sign, n.whole, dot, n.fraction, exp) &&
        s == sign + n.whole + dot + n.fraction + exp &&
        n.negative == (sign == "-") && ParseExponent(exp) == Some(n.exponent)
  {
    var p := Pieces(s);
    PiecesShape(s);
    PiecesJoin(s);
    ExponentFormIff(p.rest);
    assert NumericForm(p.sign, p.whole, p.dot, p.fraction, p.rest);
  }

  /** is_numeric(). */
  predicate IsNumeric(s: string) {
    ParseNumeral(s).Some?
  }

  /** The value of a numeral with its fractional part dropped (truncation toward zero). */
  function Truncate(n: Numeral): int
    requires AllDigits(n.whole) && AllDigits(n.fraction)
  {
    assert AllDigits(n.whole + n.fraction);
    var mantissa := DigitsValue(n.whole + n.fraction);
    var scale := n.exponent - |n.fraction|;
    var magnitude := if scale >= 0 then mantissa * Pow10(scale) else mantissa / Pow10(-scale);
    if n.negative then -magnitude else magnitude
  }

  /** (int)$value for a numeric string. */
  function IntCast(s: string): int
    requires IsNumeric(s)
  {
    Truncate(ParseNumeral(s).value)
  }

  function DigitChar(d: nat): (c: char)
    requires d < 10
    ensures IsDigit(c) && c as int - '0' as int == d
  {
    ('0' as int + d) as char
  }

  /** The decimal digits of m, without leading zeros. */
  function NatString(m: nat): string
  {
    if m < 10 then [DigitChar(m)] else NatString(m / 10) + [DigitChar(m % 10)]
  }

  /** How PHP writes an integer in decimal: a minus sign for negatives, then the digits. */
  function DecimalString(n: int): string {
    if n < 0 then "-" + NatString(-n) else NatString(n)
  }

  lemma {:induction false} NatStringDigits(m: nat)
    ensures NatString(m) != [] && AllDigits(NatString(m))
    ensures DigitsValue(NatString(m)) == m
  {
    if m >= 10 {
      NatStringDigits(m / 10);
      var s := NatString(m);
      assert s[..|s| - 1] == NatString(m / 10);
    }
  }

  /** A plain run of digits is its own numeral. */
  lemma DigitsNumeral(d: string)
    requires d != [] && AllDigits(d)
    ensures ParseNumeral(d) == Some(Numeral(false, d, "", 0))
  {
    ParseNumeralComplete("", d, "", "", "");
    assert "" + d + "" + "" + "" == d;
  }

  /** Reading back the decimal form of any integer yields that integer, tagged numeric. */
  lemma {:induction false} DecimalRoundTrip(n: int)
    ensures IsNumeric(DecimalString(n)) && IntCast(DecimalString(n)) == n
  {
    var m: nat := if n < 0 then -n else n;
    NatStringDigits(m);
    var sign := if n < 0 then "-" else "";
    SignedDigits(sign, NatString(m));
    assert sign + NatString(m) == DecimalString(n);
  }

  /** Digits with an optional minus sign read back as their value, negated after the sign. */
  lemma SignedDigits(sign: string, d: string)
    requires (sign == "" || sign == "-") && DigitsNonEmpty(d)
    ensures IsNumeric(sign + d)
    ensures IntCast(sign + d) == if sign == "-" then -(DigitsValue(d) as int) else DigitsValue(d)
  {
    var x := sign + d;
    ParseNumeralComplete(sign, d, "", "", "");
    NoEmptyTail(x);
    TruncateFraction(sign == "-", d, "");
  }


  /** Digits written after digits: the first part's value shifts left by the second part's length. */
  lemma {:induction false} DigitsValueConcat(a: string, b: string)
    requires AllDigits(a) && AllDigits(b)
    ensures AllDigits(a + b) && DigitsValue(a + b) == DigitsValue(a) * Pow10(|b|) + DigitsValue(b)
  {
    assert AllDigits(a + b) by {
      forall i | 0 <= i < |a + b| ensures IsDigit((a + b)[i]) {
        if i < |a| { assert (a + b)[i] == a[i]; } else { assert (a + b)[i] == b[i - |a|]; }
      }
    }
    if b == [] {
      assert a + b == a;
    } else {
      var c := b[..|b| - 1];
      var last := b[|b| - 1] as int - '0' as int;
      assert (a + b)[..|a + b| - 1] == a + c && (a + b)[|a + b| - 1] == b[|b| - 1];
      DigitsValueConcat(a, c);
      var x, p := DigitsValue(a), Pow10(|c|);
      ShiftByTen(x, p, DigitsValue(c), last);
    }
  }

  lemma ShiftByTen(x: int, p: int, y: int, d: int)
    ensures 10 * (x * p + y) + d == x * (10 * p) + (10 * y + d)
  {
  }

  /** n digits are worth less than 10^n. */
  lemma {:induction false} DigitsValueBound(d: string)
    requires AllDigits(d)
    ensures DigitsValue(d) < Pow10(|d|)
  {
    if d != [] {
      DigitsValueBound(d[..|d| - 1]);
    }
  }

  /** Integer division undoes a multiplication, whatever remainder below the divisor is added. */
  lemma DivideExact(x: int, q: nat, r: nat, p: nat)
    requires x == q * p + r && r < p
    ensures x / p == q
  {
    QuotientUnique(q, r, x / p, x % p, p);
  }

  /** A number has one quotient and remainder below a positive divisor. */
  lemma QuotientUnique(q: int, r: int, d: int, m: int, p: int)
    requires q * p + r == d * p + m && 0 <= r < p && 0 <= m < p
    ensures q == d
  {
    if d < q {
      assert q * p - d * p == (q - d) * p;
      MulAtLeast(q - d, p);
    } else if q < d {
      assert d * p - q * p == (d - q) * p;
      MulAtLeast(d - q, p);
    }
  }

  lemma MulAtLeast(k: int, p: int)
    requires k >= 1 && p >= 0
    ensures k * p >= p
  {
    assert k * p == (k - 1) * p + p;
  }

  /** A numeral without exponent loses its fraction digits: the cast truncates toward zero. */
  lemma TruncateFraction(negative: bool, whole: string, fraction: string)
    requires AllDigits(whole) && AllDigits(fraction)
    ensures Truncate(Numeral(negative, whole, fraction, 0)) ==
      if negative then -(DigitsValue(whole) as int) else DigitsValue(whole)
  {
    if fraction == [] {
      assert whole + fraction == whole;
    } else {
      DropFraction(whole, fraction);
    }
  }

  /** Dividing by ten to the number of fraction digits leaves the whole digits' value. */
  lemma DropFraction(whole: string, fraction: string)
    requires AllDigits(whole) && AllDigits(fraction)
    ensures AllDigits(whole + fraction) && DigitsValue(whole + fraction) / Pow10(|fraction|) == DigitsValue(whole)
  {
    DigitsValueConcat(whole, fraction);
    DigitsValueBound(fraction);
    DivideExact(DigitsValue(whole + fraction), DigitsValue(whole), DigitsValue(fraction), Pow10(|fraction|));
  }

  /**
   * A decimal fraction is numeric, and the cast keeps only its whole
   * digits, with the sign: "2.5" gives 2 and "-2.5" gives -2.
   */
  lemma FractionCast(whole: string, fraction: string)
    requires DigitsNonEmpty(whole) && AllDigits(fraction)
    ensures IsNumeric(whole + "." + fraction) && IntCast(whole + "." + fraction) == DigitsValue(whole)
    ensures IsNumeric("-" + whole + "." + fraction) && IntCast("-" + whole + "." + fraction) == -(DigitsValue(whole) as int)
  {
    SignedFraction("", whole, fraction);
    SignedFraction("-", whole, fraction);
    Unsigned(whole);
  }

  lemma SignedFraction(sign: string, whole: string, fraction: string)
    requires (sign == "" || sign == "-") && DigitsNonEmpty(whole) && AllDigits(fraction)
    ensures IsNumeric(sign + whole + "." + fraction)
    ensures IntCast(sign + whole + "." + fraction) == if sign == "-" then -(DigitsValue(whole) as int) else DigitsValue(whole)
  {
    var s := sign + whole + "." + fraction;
    ParseNumeralComplete(sign, whole, ".", fraction, "");
    NoEmptyTail(s);
    TruncateFraction(sign == "-", whole, fraction);
  }

  lemma NoEmptyTail(s: string)
    ensures s + "" == s
  {
  }

  lemma Unsigned(s: string)
    ensures "" + s == s
  {
  }


  /** Digits with a positive exponent are numeric and cast to the digits times that power of ten: "1e3" gives 1000. */
  lemma ExponentCast(whole: string, exp: string)
    requires DigitsNonEmpty(whole) && DigitsNonEmpty(exp)
    ensures IsNumeric(whole + "e" + exp) && IntCast(whole + "e" + exp) == DigitsValue(whole) * Pow10(DigitsValue(exp))
  {
    var e := "e" + exp;
    PositiveExponent(exp);
    ParseNumeralComplete("", whole, "", "", e);
    Unsigned(whole);
    NoEmptyTail(whole);
    Regroup(whole, "e", exp, []);
    TruncateScaled(whole, DigitsValue(exp));
  }

  lemma PositiveExponent(exp: string)
    requires DigitsNonEmpty(exp)
    ensures ParseExponent("e" + exp) == Some(DigitsValue(exp) as int)
  {
    var e := "e" + exp;
    assert e[0] == 'e' && e[1..] == exp;
    assert !IsSign(exp[0]);
  }

  lemma TruncateScaled(whole: string, k: nat)
    requires AllDigits(whole)
    ensures Truncate(Numeral(false, whole, "", k)) == DigitsValue(whole) * Pow10(k)
  {
    assert whole + "" == whole;
  }

}
