/** FormatTokenAmount, and a decimal parser that pins down what its result means. */
module TokenAmount {
  import opened Chain

  function Digit(d: nat): char
    requires d < 10
  {
    ('0' as int + d) as char
  }

  predicate IsDigit(c: char) {
    '0' <= c <= '9'
  }

  function DigitValue(c: char): (d: nat)
    requires IsDigit(c)
    ensures d < 10 && Digit(d) == c
  {
    c as int - '0' as int
  }

  predicate Digits(s: string) {
    forall i :: 0 <= i < |s| ==> IsDigit(s[i])
  }

  /** big.Int.String of a natural number. */
  function Decimal(n: nat): (r: string)
    ensures r != ""
  {
    if n < 10 then [Digit(n)] else Decimal(n / 10) + [Digit(n % 10)]
  }

  function Signed(v: int): string {
    if v < 0 then "-" + Decimal(-v) else Decimal(v)
  }

  function Zeros(k: nat): (r: string)
    ensures |r| == k
  {
    if k == 0 then "" else Zeros(k - 1) + "0"
  }

  function TrimRight(s: string): string {
    if s != "" && s[|s| - 1] == '0' then TrimRight(s[..|s| - 1]) else s
  }

  function Padded(digits: string, decimals: nat): (r: string)
    ensures |r| > decimals
  {
    if |digits| <= decimals then Zeros(decimals - |digits| + 1) + digits else digits
  }

  function Abs(v: int): nat {
    if v < 0 then -v else v
  }

  /** `value` is None for a nil pointer. */
  function FormatTokenAmount(value: Option<int>, decimals: nat): string {
    if value.None? then "0"
    else if decimals == 0 then Signed(value.value)
    else
      var digits := Padded(Decimal(Abs(value.value)), decimals);
      var split := |digits| - decimals;
      var whole, fraction := digits[..split], TrimRight(digits[split..]);
      var result := if fraction != "" then whole + "." + fraction else whole;
      if value.value < 0 then "-" + result else result
  }

  // ----- the meaning of a decimal string -----

  function Value(s: string): nat
    requires Digits(s)
  {
    if s == "" then 0 else 10 * Value(s[..|s| - 1]) + DigitValue(s[|s| - 1])
  }

  function Pow10(k: nat): (p: nat)
    ensures p > 0
  {
    if k == 0 then 1 else 10 * Pow10(k - 1)
  }

  function Dot(s: string, i: nat): (k: nat)
    requires i <= |s|
    ensures i <= k <= |s| && (k < |s| ==> s[k] == '.') && forall j :: i <= j < k ==> s[j] != '.'
    decreases |s| - i
  {
    if i == |s| || s[i] == '.' then i else Dot(s, i + 1)
  }

  datatype Number = Number(negative: bool, whole: string, fraction: string)

  function WholeOf(body: string): string {
    body[..Dot(body, 0)]
  }

  function FractionOf(body: string): string {
    if Dot(body, 0) < |body| then body[Dot(body, 0) + 1..] else ""
  }

  function Body(s: string): string {
    if s != "" && s[0] == '-' then s[1..] else s
  }

  /** Sign, digits, and optionally a point and more digits. */
  function Parse(s: string): Option<Number> {
    var whole, fraction := WholeOf(Body(s)), FractionOf(Body(s));
    if whole != "" && Digits(whole) && Digits(fraction) && (Dot(Body(s), 0) < |Body(s)| ==> fraction != "")
    then Some(Number(s[0] == '-', whole, fraction)) else None
  }

  function WithSign(negative: bool, magnitude: nat): int {
    if negative then 0 - magnitude as int else magnitude
  }

  /** The digits of the number once it is written with exactly `decimals` fraction digits. */
  function Scaled(n: Number, decimals: nat): string
    requires |n.fraction| <= decimals
  {
    (n.whole + n.fraction) + Zeros(decimals - |n.fraction|)
  }

  lemma ScaledDigits(n: Number, decimals: nat)
    requires Digits(n.whole) && Digits(n.fraction) && |n.fraction| <= decimals
    ensures Digits(Scaled(n, decimals))
  {
    ZerosDigits(decimals - |n.fraction|);
  }

  /** The integer `v` such that the number is v / 10^decimals, if there is one. */
  function Units(n: Number, decimals: nat): Option<int>
    requires Digits(n.whole) && Digits(n.fraction)
  {
    if |n.fraction| > decimals then None
    else
      ScaledDigits(n, decimals);
      Some(WithSign(n.negative, Value(Scaled(n, decimals))))
  }

  function ParseAmount(s: string, decimals: nat): Option<int> {
    match Parse(s)
    case None => None
    case Some(n) => Units(n, decimals)
  }

  /** Digit runs without a superfluous zero on either side. */
  ghost predicate Trimmed(n: Number) {
    && n.whole != "" && Digits(n.whole) && Digits(n.fraction)
    && (n.whole == "0" || n.whole[0] != '0')
    && (n.fraction == "" || n.fraction[|n.fraction| - 1] != '0')
  }

  /** No superfluous zero, and no minus sign on zero. */
  ghost predicate CanonicalNumber(n: Number) {
    Trimmed(n) && (n.negative ==> exists i :: 0 <= i < |n.whole + n.fraction| && (n.whole + n.fraction)[i] != '0')
  }

  ghost predicate CanonicalText(s: string) {
    Parse(s).Some? && CanonicalNumber(Parse(s).value)
  }

  function Unsigned(whole: string, fraction: string): string {
    if fraction != "" then whole + "." + fraction else whole
  }

  function Render(n: Number): string {
    if n.negative then "-" + Unsigned(n.whole, n.fraction) else Unsigned(n.whole, n.fraction)
  }

  // ----- digit strings -----

  lemma {:induction false} DecimalDigits(n: nat)
    ensures Digits(Decimal(n)) && Value(Decimal(n)) == n
    ensures Decimal(n) != "" && (n > 0 ==> Decimal(n)[0] != '0')
  {
    if n >= 10 {
      DecimalDigits(n / 10);
      assert Decimal(n)[..|Decimal(n)| - 1] == Decimal(n / 10);
    }
  }

  lemma {:induction false} ZerosDigits(k: nat)
    ensures |Zeros(k)| == k && Digits(Zeros(k)) && forall i :: 0 <= i < k ==> Zeros(k)[i] == '0'
  {
    if k > 0 {
      ZerosDigits(k - 1);
    }
  }

  lemma TimesTen(x: nat, p: nat)
    ensures x * (10 * p) == 10 * (x * p)
  {
  }

  lemma {:induction false} ValueJoin(a: string, b: string)
    requires Digits(a) && Digits(b)
    ensures Digits(a + b) && Value(a + b) == Value(a) * Pow10(|b|) + Value(b)
  {
    if b == "" {
      assert a + b == a;
    } else {
      var init := b[..|b| - 1];
      ValueJoin(a, init);
      TimesTen(Value(a), Pow10(|init|));
      assert (a + b)[..|a + b| - 1] == a + init;
    }
  }

  lemma {:induction false} ValueZeros(k: nat)
    ensures Digits(Zeros(k)) && Value(Zeros(k)) == 0
  {
    ZerosDigits(k);
    if k > 0 {
      ValueZeros(k - 1);
      assert Zeros(k)[..k - 1] == Zeros(k - 1);
    }
  }

  lemma {:induction false} ValueBound(s: string)
    requires Digits(s)
    ensures Value(s) < Pow10(|s|)
    ensures s != "" && s[0] != '0' ==> Value(s) >= Pow10(|s| - 1)
  {
    if s != "" {
      ValueBound(s[..|s| - 1]);
    }
  }

  lemma {:induction false} SameLengthSameValue(a: string, b: string)
    requires Digits(a) && Digits(b) && |a| == |b| && Value(a) == Value(b)
    ensures a == b
  {
    if a != "" {
      var x, y := a[..|a| - 1], b[..|b| - 1];
      assert DigitValue(a[|a| - 1]) == Value(a) % 10 && DigitValue(b[|b| - 1]) == Value(b) % 10;
      SameLengthSameValue(x, y);
      assert a == x + [a[|a| - 1]] && b == y + [b[|b| - 1]];
    }
  }

  lemma {:induction false} Pow10Monotone(a: nat, b: nat)
    requires a <= b
    ensures Pow10(a) <= Pow10(b)
  {
    if a < b {
      Pow10Monotone(a, b - 1);
    }
  }

  /** Padding makes the text one digit longer than the fraction, or leaves it alone. */
  lemma PaddedIs(n: nat, decimals: nat)
    ensures var t := Padded(Decimal(n), decimals);
      && Digits(t) && Value(t) == n && |t| > decimals
      && (|t| == decimals + 1 || t[0] != '0')
  {
    DecimalDigits(n);
    var k := decimals - |Decimal(n)| + 1;
    if k > 0 {
      ValueZeros(k);
      ZerosDigits(k);
      ValueJoin(Zeros(k), Decimal(n));
    } else if n == 0 {
      assert Decimal(0) == "0";
    }
  }

  lemma SameShapeSameLength(t: string, u: string, decimals: nat)
    requires Digits(t) && |t| > decimals && (|t| == decimals + 1 || t[0] != '0')
    requires Digits(u) && |u| > decimals && (|u| == decimals + 1 || u[0] != '0')
    requires Value(t) == Value(u)
    ensures |t| <= |u|
  {
    if |u| < |t| {
      ValueBound(t);
      ValueBound(u);
      Pow10Monotone(|u|, |t| - 1);
    }
  }

  /** Length and leading digit determine the padded text of a number. */
  lemma PaddedUnique(t: string, u: string, decimals: nat)
    requires Digits(t) && |t| > decimals && (|t| == decimals + 1 || t[0] != '0')
    requires u == Padded(Decimal(Value(t)), decimals)
    ensures u == t
  {
    PaddedIs(Value(t), decimals);
    SameShapeSameLength(t, u, decimals);
    SameShapeSameLength(u, t, decimals);
    SameLengthSameValue(u, t);
  }

  lemma {:induction false} TrimSplits(s: string) returns (k: nat)
    requires Digits(s)
    ensures s == TrimRight(s) + Zeros(k) && Digits(TrimRight(s))
    ensures TrimRight(s) == "" || TrimRight(s)[|TrimRight(s)| - 1] != '0'
  {
    if s != "" && s[|s| - 1] == '0' {
      var j := TrimSplits(s[..|s| - 1]);
      k := j + 1;
      assert s == s[..|s| - 1] + "0";
      assert TrimRight(s) + (Zeros(j) + "0") == TrimRight(s) + Zeros(j) + "0";
    } else {
      k := 0;
      assert s + Zeros(0) == s;
    }
  }

  lemma {:induction false} TrimUndoesZeros(s: string, k: nat)
    requires s == "" || s[|s| - 1] != '0'
    ensures TrimRight(s + Zeros(k)) == s
  {
    if k == 0 {
      assert s + Zeros(0) == s;
    } else {
      TrimUndoesZeros(s, k - 1);
      ZerosDigits(k);
      assert (s + Zeros(k))[..|s + Zeros(k)| - 1] == s + Zeros(k - 1);
    }
  }

  lemma ValueShift(a: string, k: nat)
    requires Digits(a)
    ensures Digits(a + Zeros(k)) && Value(a + Zeros(k)) == Value(a) * Pow10(k)
  {
    ValueZeros(k);
    ZerosDigits(k);
    ValueJoin(a, Zeros(k));
  }

  /** `Units` is the exact rational: digits times 10^(decimals - fraction digits), with the sign. */
  lemma UnitsAreExact(n: Number, decimals: nat)
    requires Digits(n.whole) && Digits(n.fraction) && |n.fraction| <= decimals
    ensures Digits(n.whole + n.fraction)
    ensures Units(n, decimals)
         == Some(WithSign(n.negative, Value(n.whole + n.fraction) * Pow10(decimals - |n.fraction|)))
  {
    ValueShift(n.whole + n.fraction, decimals - |n.fraction|);
  }

  lemma {:induction false} ValuePositive(s: string)
    requires Digits(s)
    ensures Value(s) > 0 <==> exists i :: 0 <= i < |s| && s[i] != '0'
  {
    if s != "" {
      var init, last := s[..|s| - 1], s[|s| - 1];
      ValuePositive(init);
      if i :| 0 <= i < |s| && s[i] != '0' {
        assert i < |init| ==> init[i] != '0';
      }
      if Value(init) > 0 {
        var i :| 0 <= i < |init| && init[i] != '0';
        assert s[i] != '0';
      }
    }
  }

  // ----- rendering and parsing -----

  lemma SplitUnsigned(whole: string, fraction: string)
    requires Digits(whole) && Digits(fraction)
    ensures var body := Unsigned(whole, fraction);
      WholeOf(body) == whole && FractionOf(body) == fraction && (Dot(body, 0) < |body| <==> fraction != "")
  {
    var body := Unsigned(whole, fraction);
    var k := Dot(body, 0);
    assert forall j :: 0 <= j < |whole| ==> body[j] == whole[j];
    assert fraction != "" ==> body[|whole|] == '.';
  }

  lemma ParseRender(n: Number)
    requires n.whole != "" && Digits(n.whole) && Digits(n.fraction)
    ensures Parse(Render(n)) == Some(n)
  {
    var body := Unsigned(n.whole, n.fraction);
    SplitUnsigned(n.whole, n.fraction);
    assert body[0] == n.whole[0];
    assert Body(Render(n)) == body;
  }

  lemma {:induction false} RenderParse(s: string)
    requires Parse(s).Some?
    ensures Render(Parse(s).value) == s
  {
    var body := Body(s);
    assert s[0] == '-' ==> s == "-" + body;
    assert body == Unsigned(WholeOf(body), FractionOf(body));
  }

  /** Cutting a digit run before its last `decimals` digits and dropping trailing zeros. */
  function Cut(negative: bool, t: string, decimals: nat): Number
    requires |t| >= decimals
  {
    Number(negative, t[..|t| - decimals], TrimRight(t[|t| - decimals..]))
  }

  lemma Rejoin(t: string, m: nat, f: string, z: string)
    requires m <= |t| && t[m..] == f + z
    ensures (t[..m] + f) + z == t
  {
  }

  lemma SplitAgain(w: string, f: string, z: string)
    ensures ((w + f) + z)[..|w|] == w && ((w + f) + z)[|w|..] == f + z
  {
  }

  /** Cutting drops only zeros: written with `decimals` fraction digits, the digits are back. */
  lemma CutScales(negative: bool, t: string, decimals: nat, n: Number) returns (k: nat)
    requires Digits(t) && |t| > decimals && n == Cut(negative, t, decimals)
    ensures |n.fraction| + k == decimals && t == (n.whole + n.fraction) + Zeros(k)
    ensures Digits(n.fraction) && (n.fraction == "" || n.fraction[|n.fraction| - 1] != '0')
  {
    var m := |t| - decimals;
    k := TrimSplits(t[m..]);
    Rejoin(t, m, TrimRight(t[m..]), Zeros(k));
  }

  lemma CutWhole(t: string, m: nat)
    requires Digits(t) && 0 < m <= |t| && (m == 1 || t[0] != '0')
    ensures t[..m] != "" && Digits(t[..m]) && (t[..m] == "0" || t[..m][0] != '0')
  {
    assert m == 1 ==> t[..m] == [t[0]];
  }

  lemma CutIsTrimmed(negative: bool, t: string, decimals: nat, n: Number)
    requires Digits(t) && |t| > decimals && (|t| == decimals + 1 || t[0] != '0')
    requires n == Cut(negative, t, decimals)
    ensures Trimmed(n) && |n.fraction| <= decimals && Scaled(n, decimals) == t
  {
    var k := CutScales(negative, t, decimals, n);
    CutWhole(t, |t| - decimals);
    assert decimals - |n.fraction| == k;
  }

  lemma CutRebuilds(n: Number, k: nat, t: string, decimals: nat)
    requires Trimmed(n) && decimals == |n.fraction| + k && t == (n.whole + n.fraction) + Zeros(k)
    ensures |t| >= decimals && Cut(n.negative, t, decimals) == n
  {
    SplitAgain(n.whole, n.fraction, Zeros(k));
    TrimUndoesZeros(n.fraction, k);
  }

  lemma ScaledShape(n: Number, decimals: nat, t: string)
    requires Trimmed(n) && |n.fraction| <= decimals && t == Scaled(n, decimals)
    ensures Digits(t) && |t| > decimals && (|t| == decimals + 1 || t[0] != '0')
  {
    ScaledDigits(n, decimals);
    assert t[0] == n.whole[0];
  }

  /** The added zeros do not make a number nonzero. */
  lemma ScaledIsNonzero(n: Number, decimals: nat)
    requires Trimmed(n) && |n.fraction| <= decimals && Digits(Scaled(n, decimals))
    ensures Value(Scaled(n, decimals)) > 0 <==>
      exists i :: 0 <= i < |n.whole + n.fraction| && (n.whole + n.fraction)[i] != '0'
  {
    var digits, t := n.whole + n.fraction, Scaled(n, decimals);
    ZerosDigits(decimals - |n.fraction|);
    ValuePositive(t);
    assert forall i :: 0 <= i < |digits| ==> t[i] == digits[i];
  }

  lemma CutIsExact(v: int, t: string, decimals: nat, n: Number)
    requires Digits(t) && |t| > decimals && (|t| == decimals + 1 || t[0] != '0') && Value(t) == Abs(v)
    requires n == Cut(v < 0, t, decimals)
    ensures CanonicalNumber(n) && Units(n, decimals) == Some(v)
  {
    CutIsTrimmed(v < 0, t, decimals, n);
    ScaledIsNonzero(n, decimals);
  }

  lemma SignDecides(n: Number, decimals: nat, t: string, v: int)
    requires CanonicalNumber(n) && |n.fraction| <= decimals && t == Scaled(n, decimals)
    requires Digits(t) && v == WithSign(n.negative, Value(t))
    ensures Abs(v) == Value(t) && (v < 0 <==> n.negative)
  {
    ScaledIsNonzero(n, decimals);
  }

  /** The sign and the two digit runs that FormatTokenAmount writes. */
  function Formatted(v: int, decimals: nat): Number {
    Cut(v < 0, Padded(Decimal(Abs(v)), decimals), decimals)
  }

  lemma NothingToCut(t: string)
    ensures t[..|t|] == t && TrimRight(t[|t|..]) == ""
  {
    assert t[|t|..] == "";
  }

  lemma FormatRendersWhole(v: int)
    ensures FormatTokenAmount(Some(v), 0) == Render(Formatted(v, 0))
  {
    var t := Decimal(Abs(v));
    assert Padded(t, 0) == t;
    NothingToCut(t);
  }

  lemma {:induction false} FormatRenders(v: int, decimals: nat)
    ensures FormatTokenAmount(Some(v), decimals) == Render(Formatted(v, decimals))
  {
    if decimals == 0 {
      FormatRendersWhole(v);
    }
  }

  lemma FormattedIsExact(v: int, decimals: nat)
    ensures CanonicalNumber(Formatted(v, decimals)) && Units(Formatted(v, decimals), decimals) == Some(v)
  {
    PaddedIs(Abs(v), decimals);
    CutIsExact(v, Padded(Decimal(Abs(v)), decimals), decimals, Formatted(v, decimals));
  }

  /** The padded digits of the amount are the scaled digits of the canonical number. */
  lemma SameDigits(n: Number, decimals: nat, t: string, u: string)
    requires Trimmed(n) && |n.fraction| <= decimals && t == Scaled(n, decimals) && Digits(t)
    requires u == Padded(Decimal(Value(t)), decimals)
    ensures u == t
  {
    ScaledShape(n, decimals, t);
    PaddedUnique(t, u, decimals);
  }

  lemma CanonicalIsCut(n: Number, decimals: nat, t: string, v: int, u: string)
    requires Trimmed(n) && |n.fraction| <= decimals && t == Scaled(n, decimals) && Digits(t)
    requires Value(t) == Abs(v) && u == Padded(Decimal(Abs(v)), decimals)
    ensures n == Cut(n.negative, u, decimals)
  {
    SameDigits(n, decimals, t, u);
    CutRebuilds(n, decimals - |n.fraction|, t, decimals);
  }

  lemma CanonicalIsFormatted(n: Number, decimals: nat, v: int)
    requires CanonicalNumber(n) && Units(n, decimals) == Some(v)
    ensures n == Formatted(v, decimals)
  {
    ScaledDigits(n, decimals);
    SignDecides(n, decimals, Scaled(n, decimals), v);
    CanonicalIsCut(n, decimals, Scaled(n, decimals), v, Padded(Decimal(Abs(v)), decimals));
  }

  /** A nil amount is written like zero. */
  lemma NilReadsZero(decimals: nat)
    ensures FormatTokenAmount(None, decimals) == FormatTokenAmount(Some(0), decimals) == "0"
  {
    FormatRenders(0, decimals);
    FormattedIsExact(0, decimals);
    var zero := Number(false, "0", "");
    assert zero.whole + zero.fraction == "0" && Value("0") == 0;
    UnitsAreExact(zero, decimals);
    CanonicalIsFormatted(zero, decimals, 0);
  }

  /**
    FormatTokenAmount writes the one canonical decimal text of v / 10^decimals: a string is its
    result exactly when it is canonical and a decimal parser reads v back from it.
    */
  lemma FormatIsTheCanonicalText(v: int, decimals: nat, s: string)
    ensures s == FormatTokenAmount(Some(v), decimals) <==> CanonicalText(s) && ParseAmount(s, decimals) == Some(v)
    ensures FormatTokenAmount(None, decimals) == FormatTokenAmount(Some(0), decimals)
  {
    FormatRenders(v, decimals);
    FormattedIsExact(v, decimals);
    var n := Formatted(v, decimals);
    ParseRender(n);
    NilReadsZero(decimals);
    if CanonicalText(s) && ParseAmount(s, decimals) == Some(v) {
      CanonicalIsFormatted(Parse(s).value, decimals, v);
      RenderParse(s);
    }
  }

  /** Different amounts never look the same. */
  lemma FormatIsInjective(v: int, u: int, decimals: nat)
    requires FormatTokenAmount(Some(v), decimals) == FormatTokenAmount(Some(u), decimals)
    ensures v == u
  {
    FormatIsTheCanonicalText(v, decimals, FormatTokenAmount(Some(v), decimals));
    FormatIsTheCanonicalText(u, decimals, FormatTokenAmount(Some(u), decimals));
  }
}
