/** Byte sizes as text: the printer, the parser, and how far a printed size is from the size itself.
    Arithmetic is exact; the printer's choice of tenths is any nearest one, so both directions a tie
    may be rounded are covered. */
module ByteSize {
  import opened Options
  import opened Search
  import opened Text

  /** The first value beyond int64, which is also float64(math.MaxInt64). */
  const TWO_63: int := 0x8000_0000_0000_0000

  // ----- the library functions the parser rests on -----

  datatype Float = NaN | PosInf | NegInf | Finite(x: real)

  function Unsigned(s: string): string {
    if s != "" && s[0] == '-' then s[1..] else s
  }

  function WholePart(s: string): string {
    var u := Unsigned(s);
    var dot := Index(u, ".");
    if dot == -1 then u else u[..dot]
  }

  function FractionPart(s: string): string {
    var u := Unsigned(s);
    var dot := Index(u, ".");
    if dot == -1 then "0" else u[dot + 1..]
  }

  /** An optional sign, digits, and an optional fraction, of a length no float64 overflows on. */
  predicate IsDecimal(s: string) {
    |s| <= 300 && IsDigits(WholePart(s)) && IsDigits(FractionPart(s))
  }

  function Pow10(k: nat): (p: real)
    ensures p > 0.0
  {
    if k == 0 then 1.0 else 10.0 * Pow10(k - 1)
  }

  function DecimalValue(s: string): real
    requires IsDecimal(s)
  {
    var f := FractionPart(s);
    var magnitude := DigitsValue(WholePart(s)) as real + DigitsValue(f) as real / Pow10(|f|);
    if s[0] == '-' then -magnitude else magnitude
  }

  function DecimalParser(s: string): Option<Float> {
    if IsDecimal(s) then Some(Finite(DecimalValue(s))) else None
  }

  /** `strconv.ParseFloat`: it reads plain decimals, and may accept or refuse any other text. */
  type FloatParser = f: string -> Option<Float> |
    (forall s :: IsDecimal(s) ==> f(s) == Some(Finite(DecimalValue(s))))
    witness DecimalParser

  function AsciiUpper(c: char): char {
    if 'a' <= c <= 'z' then (c as int - 32) as char else c
  }

  /** `unicode.ToUpper`, fixed on ASCII only. */
  type UpperCase = f: char -> char | (forall c :: c < 128 as char ==> f(c) == AsciiUpper(c)) witness AsciiUpper

  // ----- parsing -----

  /** The multiplier of an upper-cased size unit, if it is one. */
  function UnitMultiplier(unit: string): Option<int> {
    if unit == "B" then Some(1)
    else if unit == "KB" || unit == "K" then Some(1_000)
    else if unit == "MB" || unit == "M" then Some(1_000_000)
    else if unit == "GB" || unit == "G" then Some(1_000_000_000)
    else if unit == "TB" || unit == "T" then Some(1_000_000_000_000)
    else if unit == "PB" || unit == "P" then Some(1_000_000_000_000_000)
    else if unit == "EB" || unit == "E" then Some(1_000_000_000_000_000_000)
    else None
  }

  function Times(f: Float, mult: int): Float {
    if f.Finite? then Finite(f.x * mult as real) else f
  }

  /** 0 for NaN, a negative value and anything an int64 cannot hold; otherwise the whole part. */
  function FloatToInt64(f: Float): (n: int)
    ensures 0 <= n < TWO_63
  {
    match f
    case Finite(x) => if x < 0.0 || x >= TWO_63 as real then 0 else x.Floor
    case _ => 0
  }

  /** "<num> <unit>" as a byte count; 0 on any failure. */
  function ParseHumanBytes(num: FloatParser, upper: UpperCase, s: string): (n: int)
    ensures 0 <= n < TWO_63
  {
    var fields := Fields(s);
    if |fields| != 2 then 0
    else match num(fields[0])
      case None => 0
      case Some(f) =>
        match UnitMultiplier(MapRunes(upper, fields[1]))
        case None => 0
        case Some(mult) => FloatToInt64(Times(f, mult))
  }

  // ----- printing -----

  function Abs(x: int): int {
    if x < 0 then -x else x
  }

  function HalfUp(n: int, d: int): int {
    if d > 0 then (20 * n + d) / (2 * d) else 0
  }

  ghost predicate NearestTenths(f: (int, int) -> int) {
    forall n, d :: n >= 0 && d > 0 ==> 2 * Abs(f(n, d) * d - 10 * n) <= d
  }

  /** How many tenths %.1f prints for n/d: a nearest number of them. */
  type Rounding = f: (int, int) -> int | NearestTenths(f) ghost witness HalfUpNearest()

  ghost function HalfUpNearest(): (f: (int, int) -> int)
    ensures NearestTenths(f)
  {
    assert forall n, d :: n >= 0 && d > 0 ==> 2 * Abs(HalfUp(n, d) * d - 10 * n) <= d by {
      forall n, d | n >= 0 && d > 0 ensures 2 * Abs(HalfUp(n, d) * d - 10 * n) <= d {
        var q := HalfUp(n, d);
        assert 20 * n + d == q * (2 * d) + (20 * n + d) % (2 * d);
        assert q * (2 * d) == 2 * (q * d);
      }
    }
    HalfUp
  }

  const SUFFIXES: seq<string> := ["KB", "MB", "GB", "TB", "PB", "EB"]

  const SCALES: seq<int> := [
    1_000, 1_000_000, 1_000_000_000, 1_000_000_000_000, 1_000_000_000_000_000, 1_000_000_000_000_000_000
  ]

  /** The unit a size is printed in: the largest one it reaches, exabytes at most. */
  predicate IsUnit(n: int, exp: int) {
    0 <= exp < 6 && SCALES[exp] <= n && (exp < 5 ==> n < SCALES[exp + 1])
  }

  function UnitOf(n: int): (exp: int)
    requires n >= 1000
    ensures IsUnit(n, exp)
    ensures forall e :: IsUnit(n, e) ==> e == exp
  {
    if n < SCALES[1] then 0 else if n < SCALES[2] then 1 else if n < SCALES[3] then 2
    else if n < SCALES[4] then 3 else if n < SCALES[5] then 4 else 5
  }

  function Itoa64(n: int): string {
    if n < 0 then "-" + Itoa(-n) else Itoa(n)
  }

  function TenthsText(t: int): string
    requires t >= 0
  {
    Itoa(t / 10) + "." + [Digit(t % 10)]
  }

  /** The tenth of the unit a size is printed in: printed sizes are multiples of it. */
  function Granule(exp: int): (g: int)
    requires 0 <= exp < 6
    ensures g >= 100 && SCALES[exp] == 10 * g
  {
    SCALES[exp] / 10
  }

  lemma {:induction false} NearestGranule(t: int, g: int, n: int)
    requires 2 * Abs(t * (10 * g) - 10 * n) <= 10 * g
    ensures 2 * Abs(t * g - n) <= g
  {
    assert t * (10 * g) == 10 * (t * g);
  }

  lemma {:induction false} RoundNear(round: Rounding, n: int)
    requires n >= 1000
    ensures var g := Granule(UnitOf(n)); 2 * Abs(round(n, SCALES[UnitOf(n)]) * g - n) <= g
  {
    hide UnitOf, Granule;
    var exp := UnitOf(n);
    NearestGranule(round(n, SCALES[exp]), Granule(exp), n);
  }

  lemma {:induction false} Quotient(t: int, g: int, k: int)
    requires g > 0
    ensures t * g < k * g ==> t < k
    ensures t * g > k * g ==> t > k
  {
  }

  lemma {:induction false} TenthsRange(round: Rounding, n: int)
    requires n >= 1000
    ensures 10 <= round(n, SCALES[UnitOf(n)])
    ensures n < TWO_63 ==> round(n, SCALES[UnitOf(n)]) <= if UnitOf(n) == 5 then 92 else 10000
  {
    var exp := UnitOf(n);
    var g := Granule(exp);
    RoundNear(round, n);
    Quotient(round(n, SCALES[exp]), g, 9);
    Quotient(round(n, SCALES[exp]), g, 93);
    Quotient(round(n, SCALES[exp]), g, 10001);
    if exp < 5 {
      NextUnit(n, exp);
    }
  }

  function HumanText(round: Rounding, n: int): string {
    if n < 1000 then Itoa64(n) + " B"
    else
      TenthsRange(round, n);
      TenthsText(round(n, SCALES[UnitOf(n)])) + " " + SUFFIXES[UnitOf(n)]
  }

  /** The printer's loop finds the unit: the divisor never exceeds 10^18 and never passes the size. */
  method HumanBytes(round: Rounding, n: int) returns (s: string)
    ensures s == HumanText(round, n)
  {
    if n < 1000 {
      return Itoa64(n) + " B";
    }
    var div, exp := 1000, 0;
    var x := n / 1000;
    while x >= 1000 && exp < |SUFFIXES| - 1
      invariant 0 <= exp < 6 && div == SCALES[exp] && div <= n
      invariant x == n / div
      decreases x
    {
      NextUnit(n, exp);
      div := div * 1000;
      exp := exp + 1;
      x := x / 1000;
    }
    assert exp < 5 ==> n < SCALES[exp + 1] by { NextUnit(n, exp); }
    assert IsUnit(n, exp);
    TenthsRange(round, n);
    return TenthsText(round(n, div)) + " " + SUFFIXES[exp];
  }

  lemma {:induction false} NextUnit(n: int, exp: int)
    requires n >= 0 && 0 <= exp < 6
    ensures exp < 5 ==> SCALES[exp + 1] == SCALES[exp] * 1000 && n / SCALES[exp] / 1000 == n / SCALES[exp + 1]
    ensures exp < 5 ==> (n / SCALES[exp] >= 1000 <==> n >= SCALES[exp + 1])
  {
    match exp
    case 0 => case 1 => case 2 => case 3 => case 4 => case 5 =>
  }

  // ----- printing then parsing -----

  /** The size a printed size stands for. */
  function Printed(round: Rounding, n: int): int {
    if n < 0 then 0 else if n < 1000 then n else round(n, SCALES[UnitOf(n)]) * Granule(UnitOf(n))
  }

  lemma {:induction false} WholeText(s: string)
    requires IsDigits(s) && |s| <= 300
    ensures IsDecimal(s) && DecimalValue(s) == DigitsValue(s) as real
  {
    forall k: nat ensures !OccursAt(s, ".", k) {
      if k < |s| {
        assert s[k..k + 1] == [s[k]];
      }
    }
    assert "0"[..0] == "" && DigitsValue("0") == 0;
  }

  lemma {:induction false} NegativeText(s: string)
    requires IsDigits(s) && |s| < 300
    ensures IsDecimal("-" + s) && DecimalValue("-" + s) <= 0.0
  {
    var t := "-" + s;
    assert t[1..] == s && Unsigned(t) == s && Unsigned(s) == s;
    WholeText(s);
    assert WholePart(t) == WholePart(s) && FractionPart(t) == FractionPart(s);
  }

  lemma {:induction false} ItoaShort(n: nat, k: nat)
    requires k > 0 && (k < 20 ==> n < Pow10Int(k))
    ensures k < 20 ==> |Itoa(n)| <= k
  {
    if n >= 10 && 1 < k < 20 {
      ItoaShort(n / 10, k - 1);
    }
  }

  function Pow10Int(k: nat): int {
    if k == 0 then 1 else 10 * Pow10Int(k - 1)
  }

  lemma {:induction false} PartsAtDot(w: string, f: string)
    requires IsDigits(w) && IsDigits(f)
    ensures WholePart(w + "." + f) == w && FractionPart(w + "." + f) == f
  {
    var s := w + "." + f;
    forall k: nat ensures !OccursAt(w, ".", k) {
      if k < |w| {
        assert w[k..k + 1] == [w[k]];
      }
    }
    assert s[0] == w[0];
    hide Index;
    FirstOccurrence(w, ".", f);
    assert s[..|w|] == w && s[|w| + 1..] == f;
  }

  lemma {:induction false} TenthsValue(t: nat)
    requires t < 1_000_000
    ensures IsDecimal(TenthsText(t)) && DecimalValue(TenthsText(t)) == t as real / 10.0
    ensures IsWord(TenthsText(t))
  {
    hide Itoa, WholePart, FractionPart, IsWord;
    var w, f := Itoa(t / 10), [Digit(t % 10)];
    assert Pow10Int(6) == 1_000_000;
    ItoaShort(t / 10, 6);
    ItoaValue(t / 10);
    PartsAtDot(w, f);
    assert DigitsValue(f) == t % 10 by { assert f[..0] == ""; }
    TenthsSum(t);
    assert TenthsText(t)[0] == w[0];
    TenthsWord(w, f);
  }

  lemma {:induction false} TenthsSum(t: nat)
    ensures (t / 10) as real + (t % 10) as real / Pow10(1) == t as real / 10.0
  {
    assert Pow10(1) == 10.0 * Pow10(0);
    assert t / 10 * 10 + t % 10 == t;
  }

  lemma {:induction false} TenthsWord(w: string, f: string)
    requires IsDigits(w) && IsDigits(f)
    ensures IsWord(w + "." + f)
  {
    hide IsSpace;
    DigitsAreWord(w);
    DigitsAreWord(f);
    DotIsWord();
  }

  lemma {:induction false} DotIsWord()
    ensures IsWord(".")
  {
  }

  lemma {:induction false} UnitText(upper: UpperCase, unit: string)
    requires UnitMultiplier(unit).Some?
    ensures MapRunes(upper, unit) == unit && IsWord(unit)
  {
    UnitLetters(unit);
    hide UnitMultiplier;
    var u := MapRunes(upper, unit);
    assert forall i :: 0 <= i < |unit| ==> u[i] == upper(unit[i]) == AsciiUpper(unit[i]) == unit[i];
  }

  lemma {:induction false} UnitLetters(unit: string)
    requires UnitMultiplier(unit).Some?
    ensures unit != "" && forall i :: 0 <= i < |unit| ==> 'B' <= unit[i] <= 'T'
  {
  }

  lemma {:induction false} ParserReads(num: FloatParser, s: string)
    requires IsDecimal(s)
    ensures num(s) == Some(Finite(DecimalValue(s)))
  {
  }

  /** "<number> <unit>" is read as the number's value times the unit's multiplier. */
  lemma {:induction false} ParseNumberUnit(num: FloatParser, upper: UpperCase, number: string, unit: string)
    requires IsDecimal(number) && IsWord(number) && UnitMultiplier(unit).Some?
    ensures ParseHumanBytes(num, upper, number + " " + unit)
            == FloatToInt64(Times(Finite(DecimalValue(number)), UnitMultiplier(unit).value))
  {
    hide UnitMultiplier, IsWord, IsSpace, MapRunes, FieldsFrom, DecimalValue, IsDecimal, FloatToInt64, Times;
    UnitText(upper, unit);
    TwoFields(number, unit);
    ParserReads(num, number);
    var fields := Fields(number + " " + unit);
    assert fields[0] == number && fields[1] == unit;
  }

  lemma {:induction false} TwoFields(a: string, b: string)
    requires IsWord(a) && IsWord(b)
    ensures Fields(a + " " + b) == [a, b]
  {
    assert a + " " + b == a + ([' '] + b);
    FieldsCons(a, ' ', b);
    FieldsCons(b, ' ', "");
  }

  lemma {:induction false} TenthsOf(t: nat, g: int)
    requires t < 1_000_000
    requires || g == 1_000 / 10 || g == 1_000_000 / 10 || g == 1_000_000_000 / 10 || g == 1_000_000_000_000 / 10
             || g == 1_000_000_000_000_000 / 10 || g == 1_000_000_000_000_000_000 / 10
    ensures t as real / 10.0 * (10 * g) as real == (t * g) as real
  {
  }

  lemma {:induction false} WholeTenths(t: nat, exp: nat)
    requires exp < 6 && t <= (if exp == 5 then 92 else 10000)
    ensures FloatToInt64(Finite(t as real / 10.0 * SCALES[exp] as real)) == t * Granule(exp)
  {
    TenthsOf(t, Granule(exp));
    match exp
    case 0 => case 1 => case 2 => case 3 => case 4 => case 5 =>
  }

  lemma {:induction false} SuffixMultiplier(exp: nat)
    requires exp < 6
    ensures UnitMultiplier(SUFFIXES[exp]) == Some(SCALES[exp])
  {
  }

  /** Every int64 size that is printed is read back as the size its text stands for: the parser never
      fails on it and never meets its out-of-range clamp. */
  lemma {:induction false} ParsePrinted(num: FloatParser, upper: UpperCase, round: Rounding, n: int)
    requires -TWO_63 <= n < TWO_63
    ensures ParseHumanBytes(num, upper, HumanText(round, n)) == Printed(round, n)
  {
    hide ParseHumanBytes, UnitOf, Granule, TenthsText, Itoa64;
    if n < 0 {
      NegativePrinted(num, upper, n);
    } else if n < 1000 {
      SmallParsed(num, upper, n);
    } else {
      TenthsRange(round, n);
      TenthsParsed(num, upper, round(n, SCALES[UnitOf(n)]), UnitOf(n));
    }
  }

  lemma {:induction false} NegativePrinted(num: FloatParser, upper: UpperCase, n: int)
    requires -TWO_63 <= n < 0
    ensures ParseHumanBytes(num, upper, Itoa64(n) + " B") == 0
  {
    hide ParseHumanBytes, DecimalValue, FloatToInt64, IsDecimal, Itoa, IsWord;
    var s := Itoa(-n);
    assert Pow10Int(7) == 10_000_000 && Pow10Int(13) == 10_000_000_000_000;
    assert Pow10Int(19) == 10_000_000_000_000_000_000;
    ItoaShort(-n, 19);
    NegativeText(s);
    SignedIsWord(s);
    assert "-" + s + " B" == "-" + s + " " + "B" && UnitMultiplier("B") == Some(1);
    ParseNumberUnit(num, upper, "-" + s, "B");
    NotPositive(DecimalValue("-" + s));
  }

  lemma {:induction false} SignedIsWord(s: string)
    requires IsDigits(s)
    ensures IsWord("-" + s)
  {
  }

  lemma {:induction false} SmallParsed(num: FloatParser, upper: UpperCase, n: nat)
    requires n < 1000
    ensures ParseHumanBytes(num, upper, Itoa64(n) + " B") == n
  {
    hide ParseHumanBytes, DecimalValue, FloatToInt64, IsDecimal, Itoa, IsWord;
    var s := Itoa(n);
    assert Pow10Int(3) == 1000;
    ItoaShort(n, 3);
    WholeText(s);
    ItoaValue(n);
    DigitsAreWord(s);
    assert s + " B" == s + " " + "B" && UnitMultiplier("B") == Some(1);
    ParseNumberUnit(num, upper, s, "B");
    WholeFloat(n);
  }

  lemma {:induction false} TenthsParsed(num: FloatParser, upper: UpperCase, t: nat, exp: nat)
    requires exp < 6 && t <= (if exp == 5 then 92 else 10000)
    ensures ParseHumanBytes(num, upper, TenthsText(t) + " " + SUFFIXES[exp]) == t * Granule(exp)
  {
    hide ParseHumanBytes, DecimalValue, FloatToInt64, IsDecimal, TenthsText, IsWord, UnitMultiplier, Granule;
    TenthsValue(t);
    SuffixMultiplier(exp);
    ParseNumberUnit(num, upper, TenthsText(t), SUFFIXES[exp]);
    WholeTenths(t, exp);
  }

  lemma {:induction false} NotPositive(x: real)
    requires x <= 0.0
    ensures FloatToInt64(Finite(x * 1 as real)) == 0
  {
  }

  lemma {:induction false} WholeFloat(n: nat)
    requires n < 1000
    ensures FloatToInt64(Finite(n as real * 1 as real)) == n
  {
  }

  /** A printed size is exact below 1000 and within a twentieth of the size otherwise. */
  lemma {:induction false} PrintedClose(round: Rounding, n: nat)
    ensures n < 1000 ==> Printed(round, n) == n
    ensures 20 * Abs(Printed(round, n) - n) <= n
  {
    hide UnitOf, Granule;
    if n >= 1000 {
      RoundNear(round, n);
    }
  }

  lemma {:induction false} PrintedInUnit(round: Rounding, n: nat)
    requires 1000 <= n < TWO_63
    ensures SCALES[UnitOf(n)] <= Printed(round, n)
    ensures UnitOf(n) < 5 ==> Printed(round, n) <= SCALES[UnitOf(n) + 1]
    ensures UnitOf(n) == 5 ==> Printed(round, n) < TWO_63
  {
    hide UnitOf, Granule;
    TenthsRange(round, n);
    var exp := UnitOf(n);
    var t, g := round(n, SCALES[exp]), Granule(exp);
    Scaled(10, t, g);
    if exp < 5 {
      NextUnit(n, exp);
      Scaled(t, 10000, g);
    } else {
      Scaled(t, 92, g);
    }
  }

  lemma {:induction false} Scaled(a: int, b: int, g: int)
    requires a <= b && g >= 0
    ensures a * g <= b * g
  {
  }

  /** A larger size never prints as a smaller one, within a unit or across units. */
  lemma {:induction false} PrintedMonotone(round: Rounding, m: nat, n: nat)
    requires m <= n < TWO_63
    ensures Printed(round, m) <= Printed(round, n)
  {
    hide Granule, Printed;
    if m < 1000 {
      assert Printed(round, m) == m by { SmallPrinted(round, m); }
      if n < 1000 {
        SmallPrinted(round, n);
      } else {
        PrintedInUnit(round, n);
      }
    } else if UnitOf(m) == UnitOf(n) {
      SameUnitMonotone(round, m, n);
    } else {
      PrintedInUnit(round, m);
      PrintedInUnit(round, n);
    }
  }

  lemma {:induction false} SmallPrinted(round: Rounding, n: nat)
    requires n < 1000
    ensures Printed(round, n) == n
  {
  }

  lemma {:induction false} SameUnitMonotone(round: Rounding, m: nat, n: nat)
    requires 1000 <= m <= n && UnitOf(m) == UnitOf(n)
    ensures Printed(round, m) <= Printed(round, n)
  {
    hide UnitOf, Granule;
    if m < n {
      var g := Granule(UnitOf(m));
      var s, t := round(m, SCALES[UnitOf(m)]), round(n, SCALES[UnitOf(n)]);
      RoundNear(round, m);
      RoundNear(round, n);
      OrderKept(s, t, g, m, n);
    }
  }

  lemma {:induction false} OrderKept(s: int, t: int, g: int, m: int, n: int)
    requires g > 0 && m < n && 2 * Abs(s * g - m) <= g && 2 * Abs(t * g - n) <= g
    ensures s * g <= t * g
  {
    assert (t + 1) * g == t * g + g;
    Quotient(s, g, t + 1);
    Scaled(s, t, g);
  }

  /** A multiple of its own unit's tenth prints as itself. */
  lemma {:induction false} GranulePrinted(round: Rounding, p: int, k: int)
    requires p >= 1000 && p == k * Granule(UnitOf(p))
    ensures Printed(round, p) == p
  {
    hide UnitOf, Granule;
    var g := Granule(UnitOf(p));
    var u := round(p, SCALES[UnitOf(p)]);
    RoundNear(round, p);
    assert (k + 1) * g == k * g + g && (k - 1) * g == k * g - g;
    Quotient(u, g, k + 1);
    Quotient(u, g, k - 1);
    assert u == k;
  }

  /** Printing a size that was itself read from a printed size changes nothing, even where the first
      printing carried into the next unit ("1000.0 KB"). */
  lemma {:induction false} PrintedIdempotent(round: Rounding, n: nat)
    requires n < TWO_63
    ensures Printed(round, Printed(round, n)) == Printed(round, n)
  {
    if n >= 1000 {
      var p, exp := Printed(round, n), UnitOf(n);
      PrintedInUnit(round, n);
      if exp < 5 && p == SCALES[exp + 1] {
        assert UnitOf(p) == exp + 1;
        GranulePrinted(round, p, 10);
      } else {
        assert UnitOf(p) == exp;
        GranulePrinted(round, p, round(n, SCALES[exp]));
      }
    }
  }

  // ----- the texts themselves -----

  /** Below a thousand a size is printed as whole bytes, and from there on in tenths of the largest unit
      of a thousand it reaches, up to exabytes. */
  lemma {:induction false} TextByUnit(round: Rounding, n: int)
    ensures n < 1000 ==> HumanText(round, n) == Itoa64(n) + " B"
    ensures n >= 1000 ==>
              var (div, suffix) :=
                if n < 1_000_000 then (1_000, " KB") else if n < 1_000_000_000 then (1_000_000, " MB")
                else if n < 1_000_000_000_000 then (1_000_000_000, " GB")
                else if n < 1_000_000_000_000_000 then (1_000_000_000_000, " TB")
                else if n < 1_000_000_000_000_000_000 then (1_000_000_000_000_000, " PB")
                else (1_000_000_000_000_000_000, " EB");
              round(n, div) >= 10 && HumanText(round, n) == TenthsText(round(n, div)) + suffix
  {
    hide TenthsText, Itoa64;
    if n >= 1000 {
      TenthsRange(round, n);
    }
  }

  /** Exact tenths are printed alike under every rounding: digits, a point and one digit. */
  lemma {:induction false} SizesSpelled(round: Rounding)
    ensures HumanText(round, 0) == "0 B" && HumanText(round, 999) == "999 B" && HumanText(round, -5) == "-5 B"
    ensures HumanText(round, 1_000) == "1.0 KB" && HumanText(round, 12_300_000) == "12.3 MB"
    ensures HumanText(round, 2_500_000_000_000_000_000) == "2.5 EB"
  {
    hide HumanText, TenthsText;
    TextByUnit(round, 0);
    TextByUnit(round, 999);
    TextByUnit(round, -5);
    TextByUnit(round, 1_000);
    TextByUnit(round, 12_300_000);
    TextByUnit(round, 2_500_000_000_000_000_000);
    TenthsSpelled();
    DigitsSpelled();
  }

  lemma {:induction false} TenthsSpelled()
    ensures TenthsText(10) == "1.0" && TenthsText(123) == "12.3" && TenthsText(25) == "2.5"
  {
    assert Itoa(12) == Itoa(1) + ['2'];
  }

  lemma {:induction false} DigitsSpelled()
    ensures Itoa64(0) == "0" && Itoa64(999) == "999" && Itoa64(-5) == "-5"
  {
    assert Itoa(99) == Itoa(9) + ['9'];
    assert Itoa(999) == Itoa(99) + ['9'];
  }

  /** The spellings of the units, in lower and in upper case, with what they multiply by. */
  const UNITS: seq<(string, string, int)> := [
    ("b", "B", 1), ("k", "K", 1_000), ("kb", "KB", 1_000), ("m", "M", 1_000_000), ("mb", "MB", 1_000_000),
    ("g", "G", 1_000_000_000), ("gb", "GB", 1_000_000_000), ("t", "T", 1_000_000_000_000),
    ("tb", "TB", 1_000_000_000_000), ("p", "P", 1_000_000_000_000_000), ("pb", "PB", 1_000_000_000_000_000),
    ("e", "E", 1_000_000_000_000_000_000), ("eb", "EB", 1_000_000_000_000_000_000)
  ]

  lemma {:induction false} UnitsKnown(low: string, up: string, mult: int)
    requires (low, up, mult) in UNITS
    ensures UnitMultiplier(up) == Some(mult) && |low| == |up| > 0
    ensures forall i :: 0 <= i < |low| ==> 'a' <= low[i] <= 'z' && up[i] == AsciiUpper(low[i]) && 'A' <= up[i] <= 'Z'
  {
  }

  /** A decimal and a unit, in any letter case, are read as the whole part of their product; a product
      that is negative or beyond an int64 is read as 0. */
  lemma {:induction false} SizeRead(num: FloatParser, upper: UpperCase, number: string, unit: string,
                                    low: string, up: string, mult: int)
    requires IsDecimal(number) && IsWord(number) && (low, up, mult) in UNITS
    requires |unit| == |low| == |up| && forall i :: 0 <= i < |unit| ==> unit[i] == low[i] || unit[i] == up[i]
    ensures var x := DecimalValue(number) * mult as real;
            ParseHumanBytes(num, upper, number + " " + unit)
            == if 0.0 <= x < 9_223_372_036_854_775_808.0 then x.Floor else 0
  {
    hide UnitMultiplier, Fields, DecimalValue, IsDecimal, UNITS, AsciiUpper, FloatToInt64;
    UnitsKnown(low, up, mult);
    UnitRaised(upper, unit, low, up);
    TwoFields(number, unit);
    ParserReads(num, number);
    var fields := Fields(number + " " + unit);
    assert fields[0] == number && fields[1] == unit;
    var x := DecimalValue(number) * mult as real;
    FloatRange(x);
    assert Times(Finite(DecimalValue(number)), mult) == Finite(x);
  }

  lemma {:induction false} FloatRange(x: real)
    ensures FloatToInt64(Finite(x)) == if 0.0 <= x < 9_223_372_036_854_775_808.0 then x.Floor else 0
  {
  }

  lemma {:induction false} UnitRaised(upper: UpperCase, unit: string, low: string, up: string)
    requires |unit| == |low| == |up| > 0
    requires forall i :: 0 <= i < |unit| ==> unit[i] == low[i] || unit[i] == up[i]
    requires forall i :: 0 <= i < |low| ==> 'a' <= low[i] <= 'z' && up[i] == AsciiUpper(low[i]) && 'A' <= up[i] <= 'Z'
    ensures MapRunes(upper, unit) == up && IsWord(unit)
  {
  }
}
