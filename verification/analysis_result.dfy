/** The numbers the result view (components/food-analysis-result.tsx) derives
    from a record: the first decimal number in a quantity string, the macro
    values, the calorie estimate and the badge label. Numbers are exact
    reals; `parseFloat` rounding and `Math.round` are not modelled. */
module AnalysisResult {
  import opened Options
  import opened JsText
  import opened Json
  import opened Types

  // ---------------------------------------------------------------------------
  // What /(\d+(\.\d+)?)/ matches
  // ---------------------------------------------------------------------------

  /** One or more ASCII digits (`\d+`). */
  ghost predicate IsDigits(t: string) {
    |t| > 0 && AllDigits(t)
  }

  /** `t` is digits, a dot at `p`, and digits. */
  ghost predicate FractionAt(t: string, p: int) {
    0 <= p < |t| && t[p] == '.' && IsDigits(t[..p]) && IsDigits(t[p + 1..])
  }

  /** `t` is a whole match of `\d+(\.\d+)?`. */
  ghost predicate IsLexeme(t: string) {
    IsDigits(t) || exists p :: FractionAt(t, p)
  }

  /** The pattern matches the `n` characters of `s` from `i`. */
  ghost predicate LexemeAt(s: string, i: int, n: int) {
    0 <= i && 0 <= n && i + n <= |s| && IsLexeme(s[i..i + n])
  }

  /** A match found in a string: where it starts, its digits before the
      dot, and its digits after the dot (none when there is no fraction). */
  datatype NumberMatch = NumberMatch(start: nat, whole: string, fraction: string)

  /** The matched text, `match[0]`. */
  function Lexeme(m: NumberMatch): string {
    if m.fraction == [] then m.whole else m.whole + ['.'] + m.fraction
  }

  /** The position of the first ASCII digit. */
  function FirstDigit(s: string): (r: Option<nat>)
    ensures r.Some? ==> r.value < |s| && IsDigit(s[r.value]) && forall k :: 0 <= k < r.value ==> !IsDigit(s[k])
    ensures r.None? ==> forall k :: 0 <= k < |s| ==> !IsDigit(s[k])
  {
    if |s| == 0 then None
    else if IsDigit(s[0]) then Some(0)
    else
      match FirstDigit(s[1..])
      case None => None
      case Some(i) => Some(i + 1)
  }

  /** The end of the run of digits that starts at `i` (greedy `\d+`). */
  function DigitRunEnd(s: string, i: nat): (j: nat)
    requires i <= |s|
    ensures i <= j <= |s|
    ensures forall k :: i <= k < j ==> IsDigit(s[k])
    ensures j == |s| || !IsDigit(s[j])
    decreases |s| - i
  {
    if i < |s| && IsDigit(s[i]) then DigitRunEnd(s, i + 1) else i
  }

  /** The match at `i`: the digit run there, extended by a dot and the
      following digit run when a digit follows the dot. */
  function MatchAt(s: string, i: nat): (m: NumberMatch)
    requires i < |s| && IsDigit(s[i])
    ensures m.start == i && IsDigits(m.whole) && AllDigits(m.fraction)
    ensures i + |Lexeme(m)| <= |s| && s[i..i + |Lexeme(m)|] == Lexeme(m)
  {
    var j := DigitRunEnd(s, i);
    if j + 1 < |s| && s[j] == '.' && IsDigit(s[j + 1]) then
      var k := DigitRunEnd(s, j + 1);
      SliceAroundDot(s, i, j, k);
      NumberMatch(i, s[i..j], s[j + 1..k])
    else
      NumberMatch(i, s[i..j], [])
  }

  /** A slice with a dot inside is the part before it, the dot, and the
      part after it. */
  lemma SliceAroundDot(s: string, i: nat, j: nat, k: nat)
    requires i <= j < k <= |s| && s[j] == '.'
    ensures s[i..k] == s[i..j] + ['.'] + s[j + 1..k]
  {
  }

  /** What `MatchAt` returns is a whole match of the pattern. */
  lemma MatchAtIsLexeme(s: string, i: nat)
    requires i < |s| && IsDigit(s[i])
    ensures LexemeAt(s, i, |Lexeme(MatchAt(s, i))|)
  {
    var m := MatchAt(s, i);
    var j := DigitRunEnd(s, i);
    var t := Lexeme(m);
    if m.fraction == [] {
      assert IsDigits(t);
    } else {
      assert t[..j - i] == m.whole;
      assert t[j - i + 1..] == m.fraction;
      assert FractionAt(t, j - i);
    }
  }

  /** `str.match(/(\d+(\.\d+)?)/)`: the match at the first digit, if any. */
  function MatchNumber(s: string): (r: Option<NumberMatch>)
    ensures r.None? <==> forall k :: 0 <= k < |s| ==> !IsDigit(s[k])
    ensures r.Some? ==> var m := r.value;
      && m.start < |s| && IsDigit(s[m.start])
      && (forall k :: 0 <= k < m.start ==> !IsDigit(s[k]))
      && IsDigits(m.whole) && AllDigits(m.fraction)
      && m.start + |Lexeme(m)| <= |s|
      && s[m.start..m.start + |Lexeme(m)|] == Lexeme(m)
      && LexemeAt(s, m.start, |Lexeme(m)|)
  {
    match FirstDigit(s)
    case None => None
    case Some(i) =>
      MatchAtIsLexeme(s, i);
      Some(MatchAt(s, i))
  }

  /** Every match starts with a digit. */
  lemma LexemeStartsWithDigit(t: string)
    requires IsLexeme(t)
    ensures |t| > 0 && IsDigit(t[0])
  {
    if !IsDigits(t) {
      var p :| FractionAt(t, p);
      assert t[..p][0] == t[0];
    }
  }

  /** The match is the one the regular expression finds: no match starts
      before it, and no longer match starts where it does. */
  lemma {:induction false} MatchNumberLeftmostLongest(s: string)
    requires MatchNumber(s).Some?
    ensures var m := MatchNumber(s).value;
      && (forall k, n :: 0 <= k < m.start ==> !LexemeAt(s, k, n))
      && (forall n :: LexemeAt(s, m.start, n) ==> n <= |Lexeme(m)|)
  {
    var m := MatchNumber(s).value;
    var i := m.start;
    forall k, n | 0 <= k < i ensures !LexemeAt(s, k, n) {
      NoLexemeAt(s, k, n);
    }
    assert m == MatchAt(s, i);
    forall n | LexemeAt(s, i, n) ensures n <= |Lexeme(m)| {
      LongestAt(s, i, n);
    }
  }

  /** No match starts at a character that is not a digit. */
  lemma NoLexemeAt(s: string, k: nat, n: int)
    requires k < |s| && !IsDigit(s[k])
    ensures !LexemeAt(s, k, n)
  {
    if LexemeAt(s, k, n) {
      LexemeStartsWithDigit(s[k..k + n]);
    }
  }

  /** No match starting at `i` is longer than the one `MatchAt` finds. */
  lemma LongestAt(s: string, i: nat, n: nat)
    requires i < |s| && IsDigit(s[i]) && LexemeAt(s, i, n)
    ensures n <= |Lexeme(MatchAt(s, i))|
  {
    var t := s[i..i + n];
    if IsDigits(t) {
      LongestDigitsAt(s, i, n);
    } else {
      var p :| FractionAt(t, p);
      LongestFractionAt(s, i, n, p);
    }
  }

  /** A run of digits from `i` is no longer than the match there. */
  lemma LongestDigitsAt(s: string, i: nat, n: nat)
    requires i < |s| && IsDigit(s[i])
    requires i + n <= |s| && IsDigits(s[i..i + n])
    ensures n <= |Lexeme(MatchAt(s, i))|
  {
    var t := s[i..i + n];
    assert forall k :: i <= k < i + n ==> IsDigit(s[k]) by {
      forall k | i <= k < i + n ensures IsDigit(s[k]) { assert t[k - i] == s[k]; }
    }
  }

  /** A number with a fraction from `i` is no longer than the match there:
      its dot is where the first digit run ends, and its fraction digits lie
      in the run after the dot. */
  lemma LongestFractionAt(s: string, i: nat, n: nat, p: nat)
    requires i < |s| && IsDigit(s[i])
    requires i + n <= |s| && FractionAt(s[i..i + n], p)
    ensures n <= |Lexeme(MatchAt(s, i))|
  {
    var t := s[i..i + n];
    var j := DigitRunEnd(s, i);
    assert s[i + p] == '.' by { assert t[p] == s[i + p]; }
    assert forall k :: i <= k < i + p ==> IsDigit(s[k]) by {
      forall k | i <= k < i + p ensures IsDigit(s[k]) { assert t[..p][k - i] == s[k]; }
    }
    assert j == i + p;
    assert IsDigit(s[j + 1]) by { assert s[j + 1] == t[p + 1..][0]; }
    assert forall q :: j + 1 <= q < i + n ==> IsDigit(s[q]) by {
      forall q | j + 1 <= q < i + n ensures IsDigit(s[q]) { assert t[p + 1..][q - j - 1] == s[q]; }
    }
  }

  // ---------------------------------------------------------------------------
  // parseFloat on the matched text
  // ---------------------------------------------------------------------------

  function Pow10(n: nat): (r: nat)
    ensures r > 0
  {
    if n == 0 then 1 else 10 * Pow10(n - 1)
  }

  /** The exact value of a decimal numeral `whole.fraction`. */
  function DecimalValue(whole: string, fraction: string): (x: real)
    requires AllDigits(whole) && AllDigits(fraction)
    ensures DigitsToNat(whole) as real <= x < DigitsToNat(whole) as real + 1.0
  {
    FractionBelowOne(fraction);
    var f := DigitsToNat(fraction) as real / Pow10(|fraction|) as real;
    RatioBelowOne(DigitsToNat(fraction), Pow10(|fraction|));
    DigitsToNat(whole) as real + f
  }

  lemma RatioBelowOne(a: nat, b: nat)
    requires a < b
    ensures 0.0 <= a as real / b as real < 1.0
  {
  }

  lemma {:induction false} FractionBelowOne(f: string)
    requires AllDigits(f)
    ensures DigitsToNat(f) < Pow10(|f|)
  {
    if |f| > 0 {
      FractionBelowOne(f[..|f| - 1]);
    }
  }

  /** `parseFloat` of a whole match of the pattern. */
  function ParseDecimal(t: string): (x: real)
    requires IsLexeme(t)
    ensures x >= 0.0
  {
    match IndexOf(t, '.')
    case None =>
      assert IsDigits(t);
      DigitsToNat(t) as real
    case Some(p) =>
      assert FractionAt(t, p) by {
        var q :| FractionAt(t, q);
      }
      DecimalValue(t[..p], t[p + 1..])
  }

  /** `getNumericValue`: the value of the first decimal number in `s`, or 0
      when `s` has no digit. A minus sign is never part of the match. */
  function NumericValue(s: string): (x: real)
    ensures x >= 0.0
    ensures (forall k :: 0 <= k < |s| ==> !IsDigit(s[k])) ==> x == 0.0
  {
    match MatchNumber(s)
    case None => 0.0
    case Some(m) => ParseDecimal(Lexeme(m))
  }

  /** The value read is that of the matched digits and fraction. */
  lemma NumericValueOfMatch(s: string)
    requires MatchNumber(s).Some?
    ensures var m := MatchNumber(s).value;
      NumericValue(s) == DecimalValue(m.whole, m.fraction)
  {
    var m := MatchNumber(s).value;
    if m.fraction == [] {
      ParseWhole(m.whole);
    } else {
      ParseWithFraction(m.whole, m.fraction);
    }
  }

  /** A numeral without a dot reads as its digits. */
  lemma ParseWhole(w: string)
    requires IsDigits(w)
    ensures ParseDecimal(w) == DecimalValue(w, [])
  {
    assert IndexOf(w, '.') == None;
  }

  /** A numeral with a dot reads as its whole part plus its fraction. */
  lemma ParseWithFraction(w: string, f: string)
    requires IsDigits(w) && IsDigits(f)
    ensures IsLexeme(w + ['.'] + f)
    ensures ParseDecimal(w + ['.'] + f) == DecimalValue(w, f)
  {
    var t := w + ['.'] + f;
    assert t[..|w|] == w && t[|w| + 1..] == f;
    assert FractionAt(t, |w|);
    assert IndexOf(t, '.') == Some(|w|);
  }

  // ---------------------------------------------------------------------------
  // Macros, calories and the badge
  // ---------------------------------------------------------------------------

  /** `analysis.protein || getNumericValue(analysis.protein_content)` and its
      fat and carbs siblings: the numeric property when present and
      non-zero, otherwise the number read from the quantity string. */
  function MacroValue(numeric: Option<real>, content: string): (x: real)
    ensures numeric.Some? && numeric.value != 0.0 ==> x == numeric.value
    ensures numeric.None? || numeric.value == 0.0 ==> x == NumericValue(content) && x >= 0.0
  {
    if numeric.Some? && numeric.value != 0.0 then numeric.value else NumericValue(content)
  }

  /** The protein shown: `protein || getNumericValue(protein_content)` read
      on the record the typed value stands for. */
  function ProteinValue(a: FoodAnalysis): (x: real)
    ensures Num(x) == Or(PropertyOf(a, Protein), Num(NumericValue(a.proteinContent)))
    ensures x < 0.0 ==> a.protein.Some? && a.protein.value == x
  {
    MacroValue(a.protein, a.proteinContent)
  }

  /** The carbohydrates shown, from `carbs` and `carbohydrate_content`. */
  function CarbsValue(a: FoodAnalysis): (x: real)
    ensures Num(x) == Or(PropertyOf(a, Carbs), Num(NumericValue(a.carbohydrateContent)))
    ensures x < 0.0 ==> a.carbs.Some? && a.carbs.value == x
  {
    MacroValue(a.carbs, a.carbohydrateContent)
  }

  /** The fat shown, from `fat` and `fat_content`. */
  function FatValue(a: FoodAnalysis): (x: real)
    ensures Num(x) == Or(PropertyOf(a, Fat), Num(NumericValue(a.fatContent)))
    ensures x < 0.0 ==> a.fat.Some? && a.fat.value == x
  {
    MacroValue(a.fat, a.fatContent)
  }

  /** `analysis.calories || (protein * 4 + carbs * 4 + fat * 9)`: the stated
      calories when present and non-zero, otherwise the Atwater estimate
      from the macro values. */
  function CaloriesValue(a: FoodAnalysis): (kcal: real)
    ensures a.calories.Some? && a.calories.value != 0.0 ==> kcal == a.calories.value
    ensures a.calories.None? || a.calories.value == 0.0 ==>
      kcal == 4.0 * ProteinValue(a) + 4.0 * CarbsValue(a) + 9.0 * FatValue(a)
  {
    if a.calories.Some? && a.calories.value != 0.0 then a.calories.value
    else ProteinValue(a) * 4.0 + CarbsValue(a) * 4.0 + FatValue(a) * 9.0
  }

  /** With no numeric property that is negative, the calories shown are not
      negative; in particular when the numeric properties are absent. */
  lemma CaloriesNonNegative(a: FoodAnalysis)
    requires a.calories.None? || a.calories.value >= 0.0
    requires a.protein.None? || a.protein.value >= 0.0
    requires a.carbs.None? || a.carbs.value >= 0.0
    requires a.fat.None? || a.fat.value >= 0.0
    ensures CaloriesValue(a) >= 0.0
  {
  }

  /** `analysis.food_name || foodName`: the record's name when non-empty,
      otherwise the name the page passes in. */
  function BadgeLabel(a: FoodAnalysis, foodName: string): (shown: string)
    ensures a.foodName != [] ==> shown == a.foodName
    ensures a.foodName == [] ==> shown == foodName
    ensures shown == [] <==> a.foodName == [] && foodName == []
  {
    if a.foodName != [] then a.foodName else foodName
  }

  // ---------------------------------------------------------------------------
  // Worked inputs
  // ---------------------------------------------------------------------------

  /** A dot not followed by a digit ends the match: "12.g" reads 12. */
  lemma DotWithoutDigit()
    ensures NumericValue("12.g") == 12.0
  {
    var s := "12.g";
    assert FirstDigit(s) == Some(0);
    assert DigitRunEnd(s, 2) == 2;
    assert DigitRunEnd(s, 0) == 2;
    assert s[0..2] == "12";
    assert MatchAt(s, 0) == NumberMatch(0, "12", []);
    NumericValueOfMatch(s);
    assert DigitsToNat("12") == 12 by {
      assert "12"[..1] == "1";
      assert DigitsToNat("1") == 1 by { assert "1"[..0] == ""; }
    }
  }

  /** Only one fraction is taken: "1.2.3" reads 1.2. */
  lemma OneFractionOnly()
    ensures NumericValue("1.2.3") == 1.2
  {
    var s := "1.2.3";
    assert FirstDigit(s) == Some(0);
    assert DigitRunEnd(s, 1) == 1;
    assert DigitRunEnd(s, 0) == 1;
    assert DigitRunEnd(s, 3) == 3;
    assert DigitRunEnd(s, 2) == 3;
    assert s[0..1] == "1" && s[2..3] == "2";
    assert MatchAt(s, 0) == NumberMatch(0, "1", "2");
    NumericValueOfMatch(s);
    assert DigitsToNat("1") == 1 by { assert "1"[..0] == ""; }
    assert DigitsToNat("2") == 2 by { assert "2"[..0] == ""; }
  }

  /** The sign is not part of the match: "-5g" reads 5. */
  lemma MinusIgnored()
    ensures NumericValue("-5g") == 5.0
  {
    var s := "-5g";
    assert FirstDigit(s) == Some(1);
    assert DigitRunEnd(s, 2) == 2;
    assert DigitRunEnd(s, 1) == 2;
    assert s[1..2] == "5";
    assert MatchAt(s, 1) == NumberMatch(1, "5", []);
    NumericValueOfMatch(s);
    assert DigitsToNat("5") == 5 by { assert "5"[..0] == ""; }
  }

  /** The default quantity "0g" reads 0. */
  lemma ZeroGramsReadsZero()
    ensures NumericValue("0g") == 0.0
  {
    var s := "0g";
    assert FirstDigit(s) == Some(0);
    assert DigitRunEnd(s, 1) == 1;
    assert DigitRunEnd(s, 0) == 1;
    assert s[0..1] == "0";
    assert MatchAt(s, 0) == NumberMatch(0, "0", []);
    NumericValueOfMatch(s);
    assert DigitsToNat("0") == 0 by { assert "0"[..0] == ""; }
  }
}
