/**
 * Brazilian-real amounts as the browser client reads and renders them
 * (`toNumberFromBRL` and `formatCurrencyBRL` in app.js).
 *
 * `parseFloat` and `toLocaleString` work on binary floating point; this model reads
 * the same text as an exact decimal and rounds it to whole centavos.
 */
module Currency {
  import opened Wrappers
  import opened Text

  /** A finite decimal: (-1 if negative) * (whole + 0.fraction), fraction given digit by digit. */
  datatype Decimal = Decimal(negative: bool, whole: nat, fraction: string)

  const NBSP: char := '\U{00A0}'

  /** The characters `/[^\d,.-]/g` keeps. */
  predicate IsNumericChar(c: char) { IsDigit(c) || c == ',' || c == '.' || c == '-' }

  predicate IsNotDot(c: char) { c != '.' }

  /** `s.replace(from, to)` with a one-character string pattern: only the first occurrence. */
  function ReplaceFirst(s: string, from: char, to: char): (r: string)
    ensures |r| == |s|
  {
    if s == [] then []
    else if s[0] == from then [to] + s[1..]
    else [s[0]] + ReplaceFirst(s[1..], from, to)
  }

  lemma {:induction false} ReplaceFirstAfter(a: string, from: char, to: char, b: string)
    requires forall i | 0 <= i < |a| :: a[i] != from
    ensures ReplaceFirst(a + [from] + b, from, to) == a + [to] + b
  {
    if a != [] {
      assert (a + [from] + b)[1..] == a[1..] + [from] + b;
      ReplaceFirstAfter(a[1..], from, to, b);
    }
  }

  /**
   * `parseFloat` on the strings `toNumberFromBRL` hands it (digits, signs, commas and at
   * most one point): an optional sign, then what ParseUnsigned reads.
   */
  function ParseFloat(t: string): (r: Option<Decimal>)
    ensures r.Some? ==> AllDigits(r.value.fraction)
  {
    if |t| > 0 && t[0] == '-' then
      match ParseUnsigned(t[1..])
      case None => None
      case Some(d) => Some(d.(negative := true))
    else if |t| > 0 && t[0] == '+' then ParseUnsigned(t[1..])
    else ParseUnsigned(t)
  }

  /**
   * The longest run of digits and, after a point, the longest run of fraction digits;
   * None (NaN) when neither run has a digit.
   */
  function ParseUnsigned(body: string): (r: Option<Decimal>)
    ensures r.Some? ==> AllDigits(r.value.fraction) && !r.value.negative
  {
    var w := DigitRunEnd(body, 0);
    var point := w < |body| && body[w] == '.';
    var fraction := if point then body[w + 1..DigitRunEnd(body, w + 1)] else [];
    if w == 0 && fraction == [] then None
    else Some(Decimal(false, DigitsValue(body[..w]), fraction))
  }

  /** The string `toNumberFromBRL` parses: keep digits , . -, drop every dot, first comma becomes a point. */
  function CleanBRL(str: string): string {
    ReplaceFirst(Filter(Filter(str, IsNumericChar), IsNotDot), ',', '.')
  }

  /** `toNumberFromBRL`: None where the source throws 'valor inválido'. */
  function ToNumberFromBRL(str: string): (r: Option<Decimal>)
    ensures r.Some? ==> AllDigits(r.value.fraction)
  {
    ParseFloat(CleanBRL(str))
  }

  function FractionDigit(f: string, k: nat): (d: nat)
    requires AllDigits(f)
    ensures d < 10
  {
    if k < |f| then DigitValue(f[k]) else 0
  }

  /** The magnitude in centavos, rounded half away from zero (the default of `toLocaleString`). */
  function RoundToCents(d: Decimal): nat
    requires AllDigits(d.fraction)
  {
    d.whole * 100 + FractionDigit(d.fraction, 0) * 10 + FractionDigit(d.fraction, 1)
    + (if FractionDigit(d.fraction, 2) >= 5 then 1 else 0)
  }

  function Pad2(k: nat): (s: string)
    requires k < 100
    ensures |s| == 2 && AllDigits(s)
  {
    [DigitChar(k / 10), DigitChar(k % 10)]
  }

  function Pad3(k: nat): (s: string)
    requires k < 1000
    ensures |s| == 3 && AllDigits(s)
  {
    [DigitChar(k / 100), DigitChar(k / 10 % 10), DigitChar(k % 10)]
  }

  /** The integer part in pt-BR style: groups of three digits separated by '.'. */
  function Grouped(n: nat): (s: string)
    ensures |s| > 0
  {
    if n < 1000 then NatToString(n) else Grouped(n / 1000) + "." + Pad3(n % 1000)
  }

  /** pt-BR currency text for a number of centavos: [-]R$<nbsp>1.234,56. */
  function FormatCents(negative: bool, cents: nat): string {
    (if negative then "-" else "") + "R$" + [NBSP] + Grouped(cents / 100) + "," + Pad2(cents % 100)
  }

  /** `formatCurrencyBRL`: re-render a parsed amount; text that does not parse is returned as it is. */
  function FormatCurrencyBRL(str: string): string {
    match ToNumberFromBRL(str)
    case None => str
    case Some(d) => FormatCents(d.negative, RoundToCents(d))
  }

  // ---------------------------------------------------------------- lemmas

  lemma DigitsValueSnoc(s: string, c: char)
    requires AllDigits(s) && IsDigit(c)
    ensures AllDigits(s + [c]) && DigitsValue(s + [c]) == DigitsValue(s) * 10 + DigitValue(c)
  {
    var t := s + [c];
    assert t[..|t| - 1] == s;
  }

  lemma Pad2Value(k: nat)
    requires k < 100
    ensures DigitsValue(Pad2(k)) == k
  {
    var a, b := DigitChar(k / 10), DigitChar(k % 10);
    DigitsValueSnoc([], a);
    assert [] + [a] == [a];
    DigitsValueSnoc([a], b);
    assert Pad2(k) == [a] + [b];
  }

  lemma Pad3Value(k: nat)
    requires k < 1000
    ensures DigitsValue(Pad3(k)) == k
  {
    var a, b, c := DigitChar(k / 100), DigitChar(k / 10 % 10), DigitChar(k % 10);
    DigitsValueSnoc([], a);
    assert [] + [a] == [a];
    DigitsValueSnoc([a], b);
    assert [a] + [b] == [a, b];
    DigitsValueSnoc([a, b], c);
    assert Pad3(k) == [a, b] + [c];
    assert (k / 100 * 10 + k / 10 % 10) * 10 + k % 10 == k;
  }

  lemma ThousandsArithmetic(n: nat)
    requires n >= 1000
    ensures n / 10 >= 100 && n / 10 / 10 >= 10
    ensures n / 10 / 10 / 10 == n / 1000
    ensures n / 10 / 10 % 10 == n % 1000 / 100
    ensures n / 10 % 10 == n % 1000 / 10 % 10
    ensures n % 10 == n % 1000 % 10
  {
    var a, r0 := n / 10, n % 10;
    var b, r1 := a / 10, a % 10;
    var c, r2 := b / 10, b % 10;
    var m := 100 * r2 + 10 * r1 + r0;
    assert n == 1000 * c + m && 0 <= m < 1000;
    assert n / 1000 == c && n % 1000 == m;
    assert m / 100 == r2 && m % 100 == 10 * r1 + r0;
    assert m / 10 == 10 * r2 + r1 && m / 10 % 10 == r1;
    assert m % 10 == r0;
  }

  /** For n >= 1000 the decimal digits of n are those of n / 1000 followed by three more. */
  lemma NatToStringThousands(n: nat)
    requires n >= 1000
    ensures NatToString(n) == NatToString(n / 1000) + Pad3(n % 1000)
  {
    ThousandsArithmetic(n);
    var a, b := n / 10, n / 10 / 10;
    assert NatToString(n) == NatToString(a) + [DigitChar(n % 10)];
    assert NatToString(a) == NatToString(b) + [DigitChar(a % 10)];
    assert NatToString(b) == NatToString(n / 1000) + [DigitChar(b % 10)];
  }

  lemma NatToStringShort(n: nat)
    requires n < 1000
    ensures |NatToString(n)| <= 3
  {
    if n >= 10 {
      assert NatToString(n) == NatToString(n / 10) + [DigitChar(n % 10)];
      if n >= 100 {
        assert NatToString(n / 10) == NatToString(n / 100) + [DigitChar(n / 10 % 10)];
      }
    }
  }

  /** A '.' stands exactly where a multiple of four characters remain; all other characters are digits. */
  lemma {:induction false} GroupedLayout(n: nat)
    ensures forall i | 0 <= i < |Grouped(n)| :: Grouped(n)[i] == '.' <==> (|Grouped(n)| - i) % 4 == 0
    ensures forall i | 0 <= i < |Grouped(n)| :: IsDigit(Grouped(n)[i]) || Grouped(n)[i] == '.'
  {
    var g := Grouped(n);
    if n < 1000 {
      NatToStringShort(n);
    } else {
      var h := Grouped(n / 1000);
      var p := Pad3(n % 1000);
      GroupedLayout(n / 1000);
      assert g == h + "." + p;
      forall i | 0 <= i < |h| ensures (g[i] == '.' <==> (|g| - i) % 4 == 0) && (IsDigit(g[i]) || g[i] == '.') {
        assert g[i] == h[i];
        assert |g| - i == (|h| - i) + 4;
      }
      forall i | |h| < i < |g| ensures (g[i] == '.' <==> (|g| - i) % 4 == 0) && (IsDigit(g[i]) || g[i] == '.') {
        assert g[i] == p[i - |h| - 1];
      }
    }
  }

  /** With the dots removed the grouping is the plain decimal rendering. */
  lemma {:induction false} GroupedDigits(n: nat)
    ensures Filter(Grouped(n), IsNotDot) == NatToString(n)
  {
    var g := Grouped(n);
    if n < 1000 {
      FilterAllKept(g, IsNotDot);
    } else {
      var h := Grouped(n / 1000);
      var p := Pad3(n % 1000);
      GroupedDigits(n / 1000);
      FilterAppend(h + ".", p, IsNotDot);
      FilterAppend(h, ".", IsNotDot);
      FilterAllKept(p, IsNotDot);
      assert Filter(".", IsNotDot) == [] by { var dot := "."; assert dot[..0] == []; }
      NatToStringThousands(n);
      assert g == h + "." + p;
    }
  }

  lemma ParseUnsignedDigits(digits: string, fraction: string)
    requires |digits| > 0 && AllDigits(digits) && AllDigits(fraction)
    ensures ParseUnsigned(digits + "." + fraction) == Some(Decimal(false, DigitsValue(digits), fraction))
  {
    var body := digits + "." + fraction;
    var w := |digits|;
    assert body[..w] == digits;
    assert body[w] == '.';
    DigitRunEndAt(body, 0, w);
    var n := |body|;
    assert body[w + 1..n] == fraction;
    DigitRunEndAt(body, w + 1, n);
  }

  /** A leading minus negates what follows. */
  lemma ParseFloatMinus(body: string)
    ensures ParseFloat("-" + body) == (match ParseUnsigned(body) case None => None case Some(d) => Some(d.(negative := true)))
  {
    assert ("-" + body)[1..] == body;
  }

  /** Without a sign, `parseFloat` reads the digits directly. */
  lemma ParseFloatUnsigned(body: string)
    requires |body| > 0 && IsDigit(body[0])
    ensures ParseFloat(body) == ParseUnsigned(body)
  {
  }

  /** A minus, a run of digits, a point and fraction digits read as a negative decimal. */
  lemma ParseMinusDigits(digits: string, fraction: string)
    requires |digits| > 0 && AllDigits(digits) && AllDigits(fraction)
    ensures ParseFloat("-" + digits + "." + fraction) == Some(Decimal(true, DigitsValue(digits), fraction))
  {
    var body := digits + "." + fraction;
    ParseUnsignedDigits(digits, fraction);
    ParseFloatMinus(body);
    assert "-" + digits + "." + fraction == "-" + body;
  }

  /** A run of digits, a point and fraction digits read as a non-negative decimal. */
  lemma ParsePlainDigits(digits: string, fraction: string)
    requires |digits| > 0 && AllDigits(digits) && AllDigits(fraction)
    ensures ParseFloat(digits + "." + fraction) == Some(Decimal(false, DigitsValue(digits), fraction))
  {
    var body := digits + "." + fraction;
    ParseUnsignedDigits(digits, fraction);
    assert body[0] == digits[0];
    ParseFloatUnsigned(body);
  }

  /** What `parseFloat` reads from an optional minus, a run of digits, a point and fraction digits. */
  lemma ParseSignedDigits(sign: string, digits: string, fraction: string)
    requires sign == "" || sign == "-"
    requires |digits| > 0 && AllDigits(digits) && AllDigits(fraction)
    ensures ParseFloat(sign + digits + "." + fraction)
         == Some(Decimal(sign == "-", DigitsValue(digits), fraction))
  {
    if sign == "-" {
      ParseMinusDigits(digits, fraction);
    } else {
      assert sign + digits == digits;
      ParsePlainDigits(digits, fraction);
    }
  }

  function Sign(negative: bool): string { if negative then "-" else "" }

  /** The first cleaning step keeps the sign, the grouped digits, the comma and the centavos. */
  lemma KeepNumericOfFormat(negative: bool, cents: nat)
    ensures Filter(FormatCents(negative, cents), IsNumericChar)
         == Sign(negative) + Grouped(cents / 100) + "," + Pad2(cents % 100)
  {
    var sign, g, t := Sign(negative), Grouped(cents / 100), Pad2(cents % 100);
    var prefix := "R$" + [NBSP];
    assert FormatCents(negative, cents) == sign + prefix + g + "," + t;
    GroupedLayout(cents / 100);
    FilterAllKept(sign, IsNumericChar);
    FilterNoneKept(prefix, IsNumericChar);
    FilterAllKept(g, IsNumericChar);
    FilterAllKept(",", IsNumericChar);
    FilterAllKept(t, IsNumericChar);
    FilterAppend(sign, prefix, IsNumericChar);
    var sp := Filter(sign + prefix, IsNumericChar);
    assert sp == sign;
    FilterAppend(sign + prefix, g, IsNumericChar);
    var spg := Filter(sign + prefix + g, IsNumericChar);
    assert spg == sign + g;
    FilterAppend(sign + prefix + g, ",", IsNumericChar);
    var spgc := Filter(sign + prefix + g + ",", IsNumericChar);
    assert spgc == sign + g + ",";
    FilterAppend(sign + prefix + g + ",", t, IsNumericChar);
  }

  /** The second cleaning step leaves the sign, the plain digits, the comma and the centavos. */
  lemma DropDotsOfFormat(negative: bool, cents: nat)
    ensures Filter(Sign(negative) + Grouped(cents / 100) + "," + Pad2(cents % 100), IsNotDot)
         == Sign(negative) + NatToString(cents / 100) + "," + Pad2(cents % 100)
  {
    var sign, g, t := Sign(negative), Grouped(cents / 100), Pad2(cents % 100);
    var digits := NatToString(cents / 100);
    GroupedDigits(cents / 100);
    FilterAllKept(sign, IsNotDot);
    FilterAllKept(",", IsNotDot);
    FilterAllKept(t, IsNotDot);
    FilterAppend(sign, g, IsNotDot);
    var sg := Filter(sign + g, IsNotDot);
    assert sg == sign + digits;
    FilterAppend(sign + g, ",", IsNotDot);
    var sgc := Filter(sign + g + ",", IsNotDot);
    assert sgc == sign + digits + ",";
    FilterAppend(sign + g + ",", t, IsNotDot);
  }

  /** What `toNumberFromBRL` reads back from the text `formatCurrencyBRL` writes. */
  lemma FormatCentsRoundTrip(negative: bool, cents: nat)
    ensures ToNumberFromBRL(FormatCents(negative, cents))
         == Some(Decimal(negative, cents / 100, Pad2(cents % 100)))
    ensures RoundToCents(Decimal(negative, cents / 100, Pad2(cents % 100))) == cents
  {
    var sign, digits, t := Sign(negative), NatToString(cents / 100), Pad2(cents % 100);
    KeepNumericOfFormat(negative, cents);
    DropDotsOfFormat(negative, cents);
    assert forall i | 0 <= i < |sign + digits| :: (sign + digits)[i] != ',';
    ReplaceFirstAfter(sign + digits, ',', '.', t);
    assert CleanBRL(FormatCents(negative, cents)) == sign + digits + "." + t;
    ParseSignedDigits(sign, digits, t);
    NatToStringRoundTrip(cents / 100);
    Pad2Value(cents % 100);
  }

  /** Formatting an amount twice changes nothing: the rendering is a fixed point. */
  lemma FormatCurrencyIdempotent(str: string)
    ensures FormatCurrencyBRL(FormatCurrencyBRL(str)) == FormatCurrencyBRL(str)
  {
    match ToNumberFromBRL(str)
    case None =>
    case Some(d) =>
      FormatCentsRoundTrip(d.negative, RoundToCents(d));
  }

  /** The source's own example: one thousand two hundred thirty-four reais and fifty-six centavos. */
  lemma FormatExample()
    ensures FormatCents(false, 123456) == "R$\U{00A0}1.234,56"
  {
    assert Grouped(1234) == "1.234" by {
      assert Grouped(1) == "1";
      assert Pad3(234) == "234";
    }
    assert Pad2(56) == "56";
  }

  // ---------------------------------------------- the amounts the text parser captures

  /** `[\d\.\s]`: the characters an amount may hold before its last digit and comma. */
  predicate IsAmountChar(c: char) { IsDigit(c) || c == '.' || IsSpace(c) }

  /** The text the group of `R\$\s*([\d\.\s]*\d,\d{2})` captures. */
  predicate IsAmountText(a: string) {
    |a| >= 4
    && (forall i | 0 <= i < |a| - 3 :: IsAmountChar(a[i]))
    && IsDigit(a[|a| - 4]) && a[|a| - 3] == ',' && IsDigit(a[|a| - 2]) && IsDigit(a[|a| - 1])
  }

  /** The centavos an amount denotes when dots and white space are ignored. */
  function AmountCents(a: string): nat
    requires IsAmountText(a)
  {
    FilterDigits(a[..|a| - 3]);
    DigitsValue(Filter(a[..|a| - 3], IsDigit)) * 100 + DigitsValue(a[|a| - 2..])
  }

  lemma {:induction false} CleanAmountPrefix(s: string)
    requires forall i | 0 <= i < |s| :: IsAmountChar(s[i])
    ensures Filter(Filter(s, IsNumericChar), IsNotDot) == Filter(s, IsDigit)
  {
    if s != [] {
      var s', c := s[..|s| - 1], s[|s| - 1];
      CleanAmountPrefix(s');
      FilterAppend(Filter(s', IsNumericChar), if IsNumericChar(c) then [c] else [], IsNotDot);
    }
  }

  lemma DigitsOfAmountNonEmpty(s: string)
    requires |s| > 0 && IsDigit(s[|s| - 1])
    ensures |Filter(s, IsDigit)| > 0
  {
  }

  lemma KeepNumericOfAmount(pre: string, dd: string)
    requires AllDigits(dd)
    ensures Filter(pre + "," + dd, IsNumericChar) == Filter(pre, IsNumericChar) + "," + dd
  {
    FilterAppend(pre + ",", dd, IsNumericChar);
    FilterAppend(pre, ",", IsNumericChar);
    FilterAllKept(",", IsNumericChar);
    FilterAllKept(dd, IsNumericChar);
  }

  lemma DropDotsAround(kept: string, dd: string)
    requires AllDigits(dd)
    ensures Filter(kept + "," + dd, IsNotDot) == Filter(kept, IsNotDot) + "," + dd
  {
    FilterAppend(kept + ",", dd, IsNotDot);
    FilterAppend(kept, ",", IsNotDot);
    FilterAllKept(",", IsNotDot);
    FilterAllKept(dd, IsNotDot);
  }

  /** What `toNumberFromBRL` parses from a captured amount: its digits, a point, its two centavo digits. */
  lemma CleanAmount(a: string)
    requires IsAmountText(a)
    ensures CleanBRL(a) == Filter(a[..|a| - 3], IsDigit) + "." + a[|a| - 2..]
  {
    var n := |a|;
    var pre, dd := a[..n - 3], a[n - 2..];
    assert a == pre + "," + dd;
    var digits := Filter(pre, IsDigit);
    FilterDigits(pre);
    KeepNumericOfAmount(pre, dd);
    var kept := Filter(pre, IsNumericChar);
    DropDotsAround(kept, dd);
    CleanAmountPrefix(pre);
    ReplaceFirstAfter(digits, ',', '.', dd);
  }

  /**
   * `formatCurrencyBRL` of a captured amount is the canonical rendering of its centavos:
   * the dots and spaces inside it carry no meaning.
   */
  lemma AmountFormat(a: string)
    requires IsAmountText(a)
    ensures FormatCurrencyBRL(a) == FormatCents(false, AmountCents(a))
  {
    var n := |a|;
    var pre, dd := a[..n - 3], a[n - 2..];
    var digits := Filter(pre, IsDigit);
    FilterDigits(pre);
    var cents := DigitsValue(digits) * 100 + DigitsValue(dd);
    assert AmountCents(a) == cents;
    CleanAmount(a);
    assert pre[|pre| - 1] == a[n - 4];
    DigitsOfAmountNonEmpty(pre);
    ParsePlainDigits(digits, dd);
    var d := Decimal(false, DigitsValue(digits), dd);
    assert ToNumberFromBRL(a) == Some(d);
    CentsOfTwoDigits(DigitsValue(digits), dd);
    assert RoundToCents(d) == cents;
  }

  /** A whole part and exactly two fraction digits round to themselves. */
  lemma CentsOfTwoDigits(whole: nat, dd: string)
    requires |dd| == 2 && AllDigits(dd)
    ensures RoundToCents(Decimal(false, whole, dd)) == whole * 100 + DigitsValue(dd)
  {
    DigitsValueSnoc([dd[0]], dd[1]);
    DigitsValueSnoc([], dd[0]);
    assert [] + [dd[0]] == [dd[0]];
    assert [dd[0]] + [dd[1]] == dd;
  }

  /**
   * A thousands dot or a space written anywhere before the last digit of an amount
   * leaves its centavos unchanged, so `1.234,56`, `1234,56`, `1 234,56` and `1.2.34,56` agree.
   */
  lemma AmountIgnoresSeparator(x: string, c: char, y: string)
    requires c == '.' || IsSpace(c)
    requires |y| >= 4 && IsAmountText(x + y)
    ensures IsAmountText(x + [c] + y)
    ensures AmountCents(x + [c] + y) == AmountCents(x + y)
  {
    SeparatorKeepsShape(x, c, y);
    var a, b := x + [c] + y, x + y;
    var y' := y[..|y| - 3];
    assert a[..|a| - 3] == x + [c] + y';
    assert b[..|b| - 3] == x + y';
    assert a[|a| - 2..] == b[|b| - 2..];
    SeparatorKeepsDigits(x, c, y');
  }

  lemma SeparatorKeepsShape(x: string, c: char, y: string)
    requires c == '.' || IsSpace(c)
    requires |y| >= 4 && IsAmountText(x + y)
    ensures IsAmountText(x + [c] + y)
  {
    var a, b := x + [c] + y, x + y;
    forall i | 0 <= i < |a| - 3 ensures IsAmountChar(a[i]) {
      if i < |x| { assert a[i] == b[i]; } else if i > |x| { assert a[i] == b[i - 1]; }
    }
    assert a[|a| - 4] == b[|b| - 4] && a[|a| - 3] == b[|b| - 3];
    assert a[|a| - 2] == b[|b| - 2] && a[|a| - 1] == b[|b| - 1];
  }

  lemma SeparatorKeepsDigits(x: string, c: char, y: string)
    requires !IsDigit(c)
    ensures Filter(x + [c] + y, IsDigit) == Filter(x + y, IsDigit)
  {
    FilterAppend(x + [c], y, IsDigit);
    FilterAppend(x, [c], IsDigit);
    FilterNoneKept([c], IsDigit);
    FilterAppend(x, y, IsDigit);
    assert Filter(x, IsDigit) + [] == Filter(x, IsDigit);
  }
}
