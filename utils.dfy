/**
 * The validators and display classifiers of utils.py: vital-sign validation,
 * BMI and its category, blood-pressure classification, risk-score banding and
 * HTML sanitising. Every function is total over the values a JSON request can
 * carry; a Python exception that escapes is a `Fail`.
 */
module Utils {
  import opened Wrappers
  import opened PyText
  import opened PyValues

  // ---------------------------------------------------------------------------
  // validate_blood_pressure
  // ---------------------------------------------------------------------------

  /**
   * `validate_blood_pressure(bp_string)`. Falsy input and text without '/'
   * give None; text that does not split into exactly two integers gives None
   * (the ValueError is caught); a truthy non-string makes the `in` test raise
   * TypeError, which is not caught.
   */
  function ValidateBloodPressure(bp: Value): (r: Result<Option<(int, int)>, PyException>)
    ensures r.Fail? <==> Truthy(bp) && !bp.PyStr?
    ensures r.Fail? ==> r.error.TypeError?
    ensures r.Ok? && r.value.Some? ==>
              bp.PyStr? && |Split(bp.s, '/')| == 2
              && ParseInt(Split(bp.s, '/')[0]) == Some(r.value.value.0)
              && ParseInt(Split(bp.s, '/')[1]) == Some(r.value.value.1)
              && 70 <= r.value.value.0 <= 200 && 40 <= r.value.value.1 <= 130
  {
    if !Truthy(bp) then Ok(None)
    else if !bp.PyStr? then Fail(TypeError("argument of type '" + TypeName(bp) + "' is not iterable"))
    else if '/' !in bp.s then Ok(None)
    else
      var parts := Split(bp.s, '/');
      if |parts| != 2 then Ok(None)
      else
        match (ParseInt(parts[0]), ParseInt(parts[1]))
        case (Some(systolic), Some(diastolic)) =>
          if 70 <= systolic <= 200 && 40 <= diastolic <= 130 then Ok(Some((systolic, diastolic)))
          else Ok(None)
        case _ => Ok(None)
  }

  /** Text that splits into two in-range integers is accepted with exactly those numbers. */
  lemma BloodPressureAcceptsWellFormed(text: string, systolic: int, diastolic: int)
    requires |Split(text, '/')| == 2
    requires ParseInt(Split(text, '/')[0]) == Some(systolic)
    requires ParseInt(Split(text, '/')[1]) == Some(diastolic)
    requires 70 <= systolic <= 200 && 40 <= diastolic <= 130
    ensures ValidateBloodPressure(PyStr(text)) == Ok(Some((systolic, diastolic)))
  {
    assert '/' in text;
    assert Truthy(PyStr(text));
  }

  /** "s/d" written with Python's `str` is accepted for every in-range pair. */
  lemma BloodPressureRoundTrip(systolic: int, diastolic: int)
    requires 70 <= systolic <= 200 && 40 <= diastolic <= 130
    ensures ValidateBloodPressure(PyStr(IntText(systolic) + "/" + IntText(diastolic)))
            == Ok(Some((systolic, diastolic)))
  {
    SplitReading(systolic, diastolic);
    ParseIntText(systolic);
    ParseIntText(diastolic);
    BloodPressureAcceptsWellFormed(IntText(systolic) + "/" + IntText(diastolic), systolic, diastolic);
  }

  lemma NoSlashInNumber(n: int)
    ensures '/' !in IntText(n)
  {
    var t := NatText(if n < 0 then -n else n);
    forall j | 0 <= j < |t| ensures t[j] != '/' { assert IsDigit(t[j]); }
    assert n < 0 ==> IntText(n) == "-" + t;
  }

  /** The two pieces of "s/d" are the texts of s and d. */
  lemma SplitReading(systolic: int, diastolic: int)
    ensures Split(IntText(systolic) + "/" + IntText(diastolic), '/') == [IntText(systolic), IntText(diastolic)]
  {
    var a, b := IntText(systolic), IntText(diastolic);
    NoSlashInNumber(systolic);
    NoSlashInNumber(diastolic);
    SplitJoin([a, b], '/');
    assert Join([a, b], '/') == a + "/" + b;
  }

  /** Empty text, text without '/', and text with more than one '/' are all rejected without raising. */
  lemma BloodPressureRejectsMalformed(text: string)
    requires text == [] || '/' !in text || |Split(text, '/')| > 2
    ensures ValidateBloodPressure(PyStr(text)) == Ok(None)
  {
  }

  /** A well-formed reading outside the ranges is rejected. */
  lemma BloodPressureRejectsOutOfRange(systolic: int, diastolic: int)
    requires !(70 <= systolic <= 200 && 40 <= diastolic <= 130)
    ensures ValidateBloodPressure(PyStr(IntText(systolic) + "/" + IntText(diastolic))) == Ok(None)
  {
    var text := IntText(systolic) + "/" + IntText(diastolic);
    SplitReading(systolic, diastolic);
    ParseIntText(systolic);
    ParseIntText(diastolic);
    assert text[|IntText(systolic)|] == '/';
    assert '/' in text && Truthy(PyStr(text));
  }

  // ---------------------------------------------------------------------------
  // validate_heart_rate, validate_temperature, validate_weight
  // ---------------------------------------------------------------------------

  /** `validate_heart_rate(hr)`: `int(hr)` in [30, 220], any ValueError or TypeError gives None. */
  function ValidateHeartRate(hr: Value): (r: Option<int>)
    ensures r.Some? <==> ToInt(hr).Ok? && 30 <= ToInt(hr).value <= 220
    ensures r.Some? ==> r.value == ToInt(hr).value
  {
    match ToInt(hr)
    case Ok(n) => if 30 <= n <= 220 then Some(n) else None
    case Fail(_) => None
  }

  /** An integer, or its text, is accepted exactly when it lies in [30, 220]. */
  lemma HeartRateAcceptsExactlyRange(n: int)
    ensures ValidateHeartRate(PyInt(n)) == (if 30 <= n <= 220 then Some(n) else None)
    ensures ValidateHeartRate(PyStr(IntText(n))) == ValidateHeartRate(PyInt(n))
  {
    ConvertIntText(n);
    HeartRateOfInt(PyInt(n), n);
    HeartRateOfInt(PyStr(IntText(n)), n);
  }

  /** A value that `int()` turns into n is judged by n alone. */
  lemma HeartRateOfInt(hr: Value, n: int)
    requires ToInt(hr) == Ok(n)
    ensures ValidateHeartRate(hr) == (if 30 <= n <= 220 then Some(n) else None)
  {
  }

  /** A float is truncated first, so 220.9 passes as 220 and 29.9 fails as 29; None fails. */
  lemma HeartRateTruncatesFloats()
    ensures ValidateHeartRate(PyFloat(220.9)) == Some(220)
    ensures ValidateHeartRate(PyFloat(29.9)) == None
    ensures ValidateHeartRate(PyNone) == None
  {
    assert Trunc(220.9) == 220;
    assert Trunc(29.9) == 29;
  }

  /** Text is not truncated: `int("72.5")` raises ValueError, so the reading is refused. */
  lemma HeartRateRefusesDecimalText()
    ensures ValidateHeartRate(PyStr("72.5")) == None
  {
    ParseIntRejects("72.5", 2);
  }

  /** `validate_temperature(temp)`: `float(temp)` in [35.0, 42.0]. */
  function ValidateTemperature(temp: Value): (r: Option<real>)
    ensures r.Some? <==> ToFloat(temp).Ok? && 35.0 <= ToFloat(temp).value <= 42.0
    ensures r.Some? ==> r.value == ToFloat(temp).value
  {
    match ToFloat(temp)
    case Ok(t) => if 35.0 <= t <= 42.0 then Some(t) else None
    case Fail(_) => None
  }

  /** `validate_weight(weight)`: `float(weight)` in [20.0, 300.0]. */
  function ValidateWeight(weight: Value): (r: Option<real>)
    ensures r.Some? <==> ToFloat(weight).Ok? && 20.0 <= ToFloat(weight).value <= 300.0
    ensures r.Some? ==> r.value == ToFloat(weight).value
  {
    match ToFloat(weight)
    case Ok(w) => if 20.0 <= w <= 300.0 then Some(w) else None
    case Fail(_) => None
  }

  /** A float is accepted exactly on the closed ranges; None is rejected. */
  lemma TemperatureAndWeightAcceptExactlyRange(x: real)
    ensures ValidateTemperature(PyFloat(x)) == (if 35.0 <= x <= 42.0 then Some(x) else None)
    ensures ValidateWeight(PyFloat(x)) == (if 20.0 <= x <= 300.0 then Some(x) else None)
    ensures ValidateTemperature(PyNone) == None && ValidateWeight(PyNone) == None
  {
  }

  /** A number and its integer text validate alike. */
  lemma TemperatureAndWeightAcceptText(n: int)
    ensures ValidateTemperature(PyStr(IntText(n))) == ValidateTemperature(PyInt(n))
    ensures ValidateWeight(PyStr(IntText(n))) == ValidateWeight(PyInt(n))
  {
    ConvertIntText(n);
    assert ToFloat(PyInt(n)) == Ok(n as real);
  }

  // ---------------------------------------------------------------------------
  // calculate_bmi and get_bmi_category
  // ---------------------------------------------------------------------------

  /**
   * `calculate_bmi(weight, height)`: weight / height**2 rounded to one
   * decimal; the TypeError of a non-number and the ZeroDivisionError of a zero
   * height both give None.
   */
  function CalculateBmi(weight: Value, height: Value): (r: Option<real>)
    ensures r.Some? <==> Number(weight).Some? && Number(height).Some? && Number(height).value != 0.0
    ensures r.Some? ==> -0.05 <= BodyMassIndex(Number(weight).value, Number(height).value) - r.value <= 0.05
    ensures r.Some? ==> (r.value * 10.0).Floor as real == r.value * 10.0
  {
    if Number(weight).None? || Number(height).None? then None
    else
      var w, h := Number(weight).value, Number(height).value;
      // height ** 2 is zero exactly when height is
      if h == 0.0 then None
      else
        Some(Round1(BodyMassIndex(w, h)))
  }

  /** weight / height**2, unrounded. */
  function BodyMassIndex(weight: real, height: real): real
    requires height != 0.0
  {
    SquareIsPositive(height);
    weight / (height * height)
  }

  lemma SquareIsPositive(h: real)
    requires h != 0.0
    ensures h * h > 0.0
  {
    if h < 0.0 {
      assert h * h == (-h) * (-h);
    }
  }

  lemma BmiExample()
    ensures CalculateBmi(PyInt(70), PyFloat(1.75)) == Some(22.9)
    ensures GetBmiCategory(Some(22.9)) == "Normal"
    ensures CalculateBmi(PyInt(70), PyInt(0)) == None
  {
    var x := 70.0 / (1.75 * 1.75);
    assert 228.0 <= x * 10.0 < 228.6;
    assert RoundHalfEven(x * 10.0) == 229;
  }

  /** `get_bmi_category(bmi)`: None is "Unknown", and each number falls in exactly one half-open band. */
  function GetBmiCategory(bmi: Option<real>): (category: string)
    ensures category == "Unknown" <==> bmi.None?
    ensures category == "Underweight" <==> bmi.Some? && bmi.value < 18.5
    ensures category == "Normal" <==> bmi.Some? && 18.5 <= bmi.value < 25.0
    ensures category == "Overweight" <==> bmi.Some? && 25.0 <= bmi.value < 30.0
    ensures category == "Obese" <==> bmi.Some? && 30.0 <= bmi.value
  {
    if bmi.None? then "Unknown"
    else if bmi.value < 18.5 then "Underweight"
    else if 18.5 <= bmi.value < 25.0 then "Normal"
    else if 25.0 <= bmi.value < 30.0 then "Overweight"
    else "Obese"
  }

  function BmiRank(category: string): nat {
    if category == "Underweight" then 0
    else if category == "Normal" then 1
    else if category == "Overweight" then 2
    else 3
  }

  /** A larger BMI never gets a lower category. */
  lemma BmiCategoryMonotone(a: real, b: real)
    requires a <= b
    ensures BmiRank(GetBmiCategory(Some(a))) <= BmiRank(GetBmiCategory(Some(b)))
  {
  }

  // ---------------------------------------------------------------------------
  // format_blood_pressure_reading
  // ---------------------------------------------------------------------------

  datatype BpCategory = Normal | Elevated | Stage1 | Stage2 | Unknown {
    function Name(): string {
      match this
      case Normal => "Normal"
      case Elevated => "Elevated"
      case Stage1 => "Stage 1 Hypertension"
      case Stage2 => "Stage 2 Hypertension"
      case Unknown => "Unknown"
    }
  }

  /** `v < c`; None is the TypeError raised for a value that is not a number. */
  function Less(v: Value, c: real): Option<bool> {
    match Number(v)
    case Some(x) => Some(x < c)
    case None => None
  }

  /** `c <= v`. */
  function AtLeast(v: Value, c: real): Option<bool> {
    match Number(v)
    case Some(x) => Some(c <= x)
    case None => None
  }

  /** Python's short-circuit `a and b`: b is looked at only when a holds. */
  function And(a: Option<bool>, b: Option<bool>): Option<bool> {
    match a
    case None => None
    case Some(false) => Some(false)
    case Some(true) => b
  }

  /** Python's short-circuit `a or b`. */
  function Or(a: Option<bool>, b: Option<bool>): Option<bool> {
    match a
    case None => None
    case Some(true) => Some(true)
    case Some(false) => b
  }

  /**
   * The category chosen by the if/elif chain of
   * `format_blood_pressure_reading`, with Python's comparison and
   * short-circuit rules; None is the TypeError that yields "Invalid reading".
   */
  function ClassifyReading(systolic: Value, diastolic: Value): (r: Option<BpCategory>)
    ensures Number(systolic).Some? && Number(diastolic).Some? ==> r.Some? && r.value != Unknown
    ensures Number(systolic).None? ==> r.None?
  {
    var normal := And(Less(systolic, 120.0), Less(diastolic, 80.0));
    var elevated := And(And(AtLeast(systolic, 120.0), Less(systolic, 130.0)), Less(diastolic, 80.0));
    var stage1 := Or(And(AtLeast(systolic, 130.0), Less(systolic, 140.0)),
                     And(AtLeast(diastolic, 80.0), Less(diastolic, 90.0)));
    var stage2 := Or(AtLeast(systolic, 140.0), AtLeast(diastolic, 90.0));
    if normal.None? then None
    else if normal.value then Some(Normal)
    else if elevated.None? then None
    else if elevated.value then Some(Elevated)
    else if stage1.None? then None
    else if stage1.value then Some(Stage1)
    else if stage2.None? then None
    else if stage2.value then Some(Stage2)
    else Some(Unknown)
  }

  /** On numbers the earlier branches take priority: each category holds exactly on these regions. */
  lemma NumericReadingBands(s: real, d: real)
    ensures ClassifyReading(PyFloat(s), PyFloat(d)) == Some(Normal) <==> s < 120.0 && d < 80.0
    ensures ClassifyReading(PyFloat(s), PyFloat(d)) == Some(Elevated) <==> 120.0 <= s < 130.0 && d < 80.0
    ensures ClassifyReading(PyFloat(s), PyFloat(d)) == Some(Stage1) <==>
              !(s < 130.0 && d < 80.0) && (130.0 <= s < 140.0 || 80.0 <= d < 90.0)
    ensures ClassifyReading(PyFloat(s), PyFloat(d)) == Some(Stage2) <==>
              (140.0 <= s || 90.0 <= d) && !(130.0 <= s < 140.0) && !(80.0 <= d < 90.0)
  {
  }

  /** A diastolic value that is not a number is never compared when the systolic decides first. */
  lemma ShortCircuitSkipsDiastolic()
    ensures ClassifyReading(PyInt(135), PyStr("x")) == Some(Stage1)
    ensures ClassifyReading(PyInt(150), PyStr("x")) == None
    ensures ClassifyReading(PyInt(110), PyNone) == None
  {
  }

  /** The as-written chain reports a systolic of 145 with a diastolic of 85 as Stage 1. */
  lemma StageTwoReportedAsStageOne()
    ensures ClassifyReading(PyInt(145), PyInt(85)) == Some(Stage1)
    ensures ClassifyReading(PyInt(135), PyInt(95)) == Some(Stage1)
  {
  }

  /** The higher of the two categories, as blood-pressure guidelines grade a reading. */
  function IntendedCategory(s: real, d: real): (c: BpCategory)
    ensures c == Stage2 <==> 140.0 <= s || 90.0 <= d
    ensures c == Stage1 <==> s < 140.0 && d < 90.0 && (130.0 <= s || 80.0 <= d)
    ensures c == Elevated <==> 120.0 <= s < 130.0 && d < 80.0
    ensures c == Normal <==> s < 120.0 && d < 80.0
  {
    if 140.0 <= s || 90.0 <= d then Stage2
    else if 130.0 <= s || 80.0 <= d then Stage1
    else if 120.0 <= s then Elevated
    else Normal
  }

  /** The as-written chain agrees with the intended grading except where one reading is Stage 2 and the other Stage 1. */
  lemma ClassifyReadingMatchesIntended(s: real, d: real)
    requires !(130.0 <= s < 140.0 && 90.0 <= d) && !(140.0 <= s && 80.0 <= d < 90.0)
    ensures ClassifyReading(PyFloat(s), PyFloat(d)) == Some(IntendedCategory(s, d))
  {
  }

  /** The text `f"{systolic}/{diastolic} mmHg ({category})"`. */
  function ReadingText(systolic: int, diastolic: int, category: BpCategory): string {
    IntText(systolic) + "/" + IntText(diastolic) + " mmHg (" + category.Name() + ")"
  }

  /** Each category has a name of its own. */
  lemma NamesDistinct(c1: BpCategory, c2: BpCategory)
    ensures c1.Name() == c2.Name() <==> c1 == c2
  {
    if (c1 == Stage1 && c2 == Stage2) || (c1 == Stage2 && c2 == Stage1) {
      assert c1.Name()[6] != c2.Name()[6];
    }
  }

  /** Two texts of the same reading are equal exactly when they name the same category. */
  lemma ReadingTextNamesCategory(systolic: int, diastolic: int, c1: BpCategory, c2: BpCategory)
    ensures ReadingText(systolic, diastolic, c1) == ReadingText(systolic, diastolic, c2) <==> c1 == c2
  {
    var head := IntText(systolic) + "/" + IntText(diastolic) + " mmHg (";
    var t1, t2 := ReadingText(systolic, diastolic, c1), ReadingText(systolic, diastolic, c2);
    assert t1 == head + c1.Name() + ")";
    assert t2 == head + c2.Name() + ")";
    if t1 == t2 {
      assert c1.Name() == t1[|head|..|t1| - 1];
      assert c2.Name() == t2[|head|..|t2| - 1];
      NamesDistinct(c1, c2);
    }
  }

  /**
   * `format_blood_pressure_reading(systolic, diastolic)` for integer readings,
   * exactly as written: the category is the first branch of the elif chain that holds.
   */
  function FormatBloodPressureReadingAsWritten(systolic: int, diastolic: int): (r: string)
    ensures ClassifyReading(PyInt(systolic), PyInt(diastolic)).Some?
    ensures r == ReadingText(systolic, diastolic, ClassifyReading(PyInt(systolic), PyInt(diastolic)).value)
    ensures ClassifyReading(PyInt(systolic), PyInt(diastolic)).value != Unknown
  {
    match ClassifyReading(PyInt(systolic), PyInt(diastolic))
    case Some(category) => ReadingText(systolic, diastolic, category)
    case None => "Invalid reading"
  }

  /** An integer reading is classified as the same number given as a float. */
  lemma ClassifyIntAsFloat(systolic: int, diastolic: int)
    ensures ClassifyReading(PyInt(systolic), PyInt(diastolic))
         == ClassifyReading(PyFloat(systolic as real), PyFloat(diastolic as real))
  {
  }

  /**
   * The reading with the category as intended: it names Stage 2 exactly when
   * either number is in the Stage 2 range, and it is the text the program
   * returns everywhere except on the two regions of the defect.
   */
  function FormatBloodPressureReading(systolic: int, diastolic: int): (r: string)
    ensures r == ReadingText(systolic, diastolic, Stage2) <==> 140 <= systolic || 90 <= diastolic
    ensures r == FormatBloodPressureReadingAsWritten(systolic, diastolic) <==>
              !(130 <= systolic < 140 && 90 <= diastolic) && !(140 <= systolic && 80 <= diastolic < 90)
  {
    var category := IntendedCategory(systolic as real, diastolic as real);
    var asWritten := ClassifyReading(PyInt(systolic), PyInt(diastolic)).value;
    ClassifyIntAsFloat(systolic, diastolic);
    NumericReadingBands(systolic as real, diastolic as real);
    ReadingTextNamesCategory(systolic, diastolic, category, Stage2);
    ReadingTextNamesCategory(systolic, diastolic, category, asWritten);
    ReadingText(systolic, diastolic, category)
  }

  // ---------------------------------------------------------------------------
  // format_risk_score
  // ---------------------------------------------------------------------------

  datatype RiskLevel = Low | Moderate | Increased | High {
    function Name(): string {
      match this
      case Low => "Low"
      case Moderate => "Moderate"
      case Increased => "Increased"
      case High => "High"
    }

    function Advice(): string {
      match this
      case Low => "Maintain healthy lifestyle"
      case Moderate => "Consider lifestyle improvements"
      case Increased => "Consult healthcare provider"
      case High => "Urgent medical attention recommended"
    }

    function Rank(): nat {
      match this
      case Low => 0
      case Moderate => 1
      case Increased => 2
      case High => 3
    }
  }

  /** The dictionary `format_risk_score` returns. */
  datatype RiskReport = RiskReport(percentage: real, level: string, advice: string)

  /** The band of the if/elif chain, on the unrounded percentage. */
  function BandOf(percentage: real): (level: RiskLevel)
    ensures level == Low <==> percentage < 20.0
    ensures level == Moderate <==> 20.0 <= percentage < 40.0
    ensures level == Increased <==> 40.0 <= percentage < 60.0
    ensures level == High <==> 60.0 <= percentage
  {
    if percentage < 20.0 then Low
    else if 20.0 <= percentage < 40.0 then Moderate
    else if 40.0 <= percentage < 60.0 then Increased
    else High
  }

  /** `format_risk_score(score)`. */
  function FormatRiskScore(score: real): (r: RiskReport)
    ensures -0.05 <= score * 100.0 - r.percentage <= 0.05
    ensures (r.percentage * 10.0).Floor as real == r.percentage * 10.0
    ensures r.level == BandOf(score * 100.0).Name() && r.advice == BandOf(score * 100.0).Advice()
  {
    var percentage := score * 100.0;
    var level := BandOf(percentage);
    RiskReport(Round1(percentage), level.Name(), level.Advice())
  }

  /** Each level always comes with its own advice, and different levels have different names. */
  lemma RiskLevelAdvicePaired(score: real)
    ensures exists level: RiskLevel :: FormatRiskScore(score).level == level.Name()
                                       && FormatRiskScore(score).advice == level.Advice()
    ensures forall a: RiskLevel, b: RiskLevel :: a.Name() == b.Name() ==> a == b
  {
    var level := BandOf(score * 100.0);
    assert FormatRiskScore(score).level == level.Name();
  }

  /** A higher score never gets a lower level. */
  lemma RiskLevelMonotone(a: real, b: real)
    requires a <= b
    ensures BandOf(a * 100.0).Rank() <= BandOf(b * 100.0).Rank()
  {
  }

  /** The band boundaries are inclusive below and exclusive above. */
  lemma RiskScoreTable()
    ensures FormatRiskScore(0.0) == RiskReport(0.0, "Low", "Maintain healthy lifestyle")
    ensures FormatRiskScore(0.19).level == "Low" && FormatRiskScore(0.19).percentage == 19.0
    ensures FormatRiskScore(0.20).level == "Moderate" && FormatRiskScore(0.20).percentage == 20.0
    ensures FormatRiskScore(0.39).level == "Moderate" && FormatRiskScore(0.39).percentage == 39.0
    ensures FormatRiskScore(0.40).level == "Increased" && FormatRiskScore(0.40).percentage == 40.0
    ensures FormatRiskScore(0.59).level == "Increased" && FormatRiskScore(0.59).percentage == 59.0
    ensures FormatRiskScore(0.60).level == "High" && FormatRiskScore(0.60).percentage == 60.0
    ensures FormatRiskScore(1.0).level == "High" && FormatRiskScore(1.0).percentage == 100.0
  {
    Round1Exact(0);
    Round1Exact(190);
    Round1Exact(200);
    Round1Exact(390);
    Round1Exact(400);
    Round1Exact(590);
    Round1Exact(600);
    Round1Exact(1000);
  }

  /** The band is chosen before rounding, so a displayed 20.0 can still read "Low". */
  lemma BandUsesUnroundedPercentage()
    ensures FormatRiskScore(0.19996).percentage == 20.0
    ensures FormatRiskScore(0.19996).level == "Low"
  {
    assert RoundHalfEven(0.19996 * 100.0 * 10.0) == 200;
  }

  // ---------------------------------------------------------------------------
  // sanitize_input
  // ---------------------------------------------------------------------------

  /** No '<' is followed, anywhere later, by a '>': no complete tag is left. */
  predicate NoTag(s: string) {
    forall i, j :: 0 <= i < j < |s| && s[i] == '<' ==> s[j] != '>'
  }

  /**
   * `re.sub(r'<[^>]*>', '', s)`: scanning left to right, a '<' with a '>'
   * somewhere after it is removed together with everything up to the first
   * such '>'; every other character is kept.
   */
  function StripTags(s: string): (r: string)
    ensures '>' in r ==> '>' in s
    ensures NoTag(r)
    ensures |r| <= |s|
    ensures '<' !in s ==> r == s
    ensures '>' !in s ==> r == s
    decreases |s|
  {
    if s == [] then []
    else if s[0] == '<' && '>' in s[1..] then
      var k := FirstIndex(s[1..], '>') + 2;
      assert s == s[..k] + s[k..];
      StripTags(s[k..])
    else
      var rest := StripTags(s[1..]);
      assert s == [s[0]] + s[1..];
      assert '>' in rest ==> '>' in s[1..];
      [s[0]] + rest
  }

  /** A first character other than '<' is kept. */
  lemma StripTagsPlainStep(s: string)
    requires s != [] && s[0] != '<'
    ensures StripTags(s) == [s[0]] + StripTags(s[1..])
  {
  }

  /** The first `k` characters are kept when none of them is '<'. */
  lemma {:induction false} StripTagsKeepsPrefix(s: string, k: nat)
    requires k <= |s| && '<' !in s[..k]
    ensures StripTags(s) == s[..k] + StripTags(s[k..])
    decreases k
  {
    if k > 0 {
      assert s[0] == s[..k][0];
      StripTagsPlainStep(s);
      var tail := s[1..];
      assert tail[..k - 1] == s[1..k];
      StripTagsKeepsPrefix(tail, k - 1);
      assert tail[k - 1..] == s[k..];
      assert s[..k] == [s[0]] + s[1..k];
    }
  }

  /** Text before the first '<' is kept as it is. */
  lemma StripTagsKeepsPlain(a: string, b: string)
    requires '<' !in a
    ensures StripTags(a + b) == a + StripTags(b)
  {
    var s := a + b;
    assert s[..|a|] == a && s[|a|..] == b;
    StripTagsKeepsPrefix(s, |a|);
  }

  /** A leading '<' with a '>' after it goes together with everything up to that '>'. */
  lemma StripTagsTagStep(s: string)
    requires s != [] && s[0] == '<' && '>' in s[1..]
    ensures StripTags(s) == StripTags(s[FirstIndex(s[1..], '>') + 2..])
  {
  }

  /** A tag at the front is dropped, up to its first '>'. */
  lemma StripTagsDropsTag(m: string, b: string)
    requires '>' !in m
    ensures StripTags("<" + m + ">" + b) == StripTags(b)
  {
    var tag := "<" + m + ">" + b;
    var body := tag[1..];
    assert body == m + ">" + b;
    assert body[|m|] == '>' && body[..|m|] == m;
    assert FirstIndex(body, '>') == |m|;
    StripTagsTagStep(tag);
    assert tag[|m| + 2..] == b;
  }

  /** A '<' followed later by a '>' is removed with everything up to the first such '>'. */
  lemma StripTagsRemovesTag(a: string, m: string, b: string)
    requires '<' !in a && '>' !in m
    ensures StripTags(a + "<" + m + ">" + b) == a + StripTags(b)
  {
    var tag := "<" + m + ">" + b;
    assert a + "<" + m + ">" + b == a + tag;
    StripTagsKeepsPlain(a, tag);
    StripTagsDropsTag(m, b);
  }

  predicate MarkupFree(c: char) {
    c != '<' && c != '>' && c != '"' && c != '\''
  }

  /** The entity each of the five special characters becomes. */
  function EscapeChar(c: char): string {
    if c == '&' then "&amp;"
    else if c == '<' then "&lt;"
    else if c == '>' then "&gt;"
    else if c == '"' then "&quot;"
    else if c == '\'' then "&#x27;"
    else [c]
  }

  /** Character-by-character escaping. */
  function EscapeAll(s: string): (r: string)
    ensures forall i :: 0 <= i < |r| ==> MarkupFree(r[i])
  {
    if s == [] then [] else EscapeChar(s[0]) + EscapeAll(s[1..])
  }

  /** The chain of `replace` calls of `sanitize_input`, '&' first: text without any of the five characters is left as it is. */
  function ReplaceEntities(t: string): (r: string)
    ensures NoEntityChar(t) ==> r == t
  {
    NoEntityCharUnchanged(t);
    var amp := ReplaceAll(t, "&", "&amp;");
    var lt := ReplaceAll(amp, "<", "&lt;");
    var gt := ReplaceAll(lt, ">", "&gt;");
    var quot := ReplaceAll(gt, "\"", "&quot;");
    ReplaceAll(quot, "'", "&#x27;")
  }

  /**
   * `sanitize_input(text)`: a falsy value (None, "", 0, False) gives "";
   * any other value that is not text makes `re.sub` raise TypeError.
   */
  function SanitizeInput(text: Value): (r: Result<string, PyException>)
    ensures !Truthy(text) ==> r == Ok("")
    ensures r.Fail? <==> Truthy(text) && !text.PyStr?
    ensures r.Fail? ==> r.error.TypeError?
    ensures text.PyStr? ==> r == Ok(EscapeAll(StripTags(text.s)))
    ensures r.Ok? ==> forall i :: 0 <= i < |r.value| ==> MarkupFree(r.value[i])
  {
    if !Truthy(text) then Ok("")
    else if !text.PyStr? then Fail(TypeError("expected string or bytes-like object, got '" + TypeName(text) + "'"))
    else
      var stripped := StripTags(text.s);
      ReplaceEntitiesIsEscape(stripped);
      Ok(ReplaceEntities(stripped))
  }

  /** None gives "", and so does 0; a non-zero number is refused with TypeError. */
  lemma SanitizeNonText()
    ensures SanitizeInput(PyNone) == Ok("")
    ensures SanitizeInput(PyInt(0)) == Ok("")
    ensures SanitizeInput(PyInt(5)) == Fail(TypeError("expected string or bytes-like object, got 'int'"))
  {
    assert Truthy(PyInt(5)) && TypeName(PyInt(5)) == "int";
    assert "expected string or bytes-like object, got '" + "int" + "'"
           == "expected string or bytes-like object, got 'int'";
  }

  lemma ReplaceSingle(x: char, c: char, rep: string)
    ensures ReplaceAll([x], [c], rep) == if x == c then rep else [x]
  {
    assert [x][..1] == [x];
    assert [x][1..] == [];
  }

  lemma {:induction false} ReplaceAbsentChar(s: string, c: char, rep: string)
    requires c !in s
    ensures ReplaceAll(s, [c], rep) == s
    decreases |s|
  {
    if s != [] {
      assert s[..1] == [s[0]];
      ReplaceAbsentChar(s[1..], c, rep);
    }
  }

  predicate NoEntityChar(t: string) {
    '&' !in t && '<' !in t && '>' !in t && '"' !in t && '\'' !in t
  }

  /** Each of the five replacements leaves a text without its character unchanged. */
  lemma NoEntityCharUnchanged(t: string)
    ensures NoEntityChar(t) ==>
              ReplaceAll(t, "&", "&amp;") == t && ReplaceAll(t, "<", "&lt;") == t && ReplaceAll(t, ">", "&gt;") == t
              && ReplaceAll(t, "\"", "&quot;") == t && ReplaceAll(t, "'", "&#x27;") == t
  {
    if NoEntityChar(t) {
      ReplaceAbsentChar(t, '&', "&amp;");
      ReplaceAbsentChar(t, '<', "&lt;");
      ReplaceAbsentChar(t, '>', "&gt;");
      ReplaceAbsentChar(t, '"', "&quot;");
      ReplaceAbsentChar(t, '\'', "&#x27;");
    }
  }

  lemma ReplaceEntitiesConcat(a: string, b: string)
    ensures ReplaceEntities(a + b) == ReplaceEntities(a) + ReplaceEntities(b)
  {
    var amp1, amp2 := ReplaceAll(a, "&", "&amp;"), ReplaceAll(b, "&", "&amp;");
    ReplaceCharConcat(a, b, '&', "&amp;");
    var lt1, lt2 := ReplaceAll(amp1, "<", "&lt;"), ReplaceAll(amp2, "<", "&lt;");
    ReplaceCharConcat(amp1, amp2, '<', "&lt;");
    var gt1, gt2 := ReplaceAll(lt1, ">", "&gt;"), ReplaceAll(lt2, ">", "&gt;");
    ReplaceCharConcat(lt1, lt2, '>', "&gt;");
    var q1, q2 := ReplaceAll(gt1, "\"", "&quot;"), ReplaceAll(gt2, "\"", "&quot;");
    ReplaceCharConcat(gt1, gt2, '"', "&quot;");
    ReplaceCharConcat(q1, q2, '\'', "&#x27;");
  }

  lemma ReplaceEntitiesChar(x: char)
    ensures ReplaceEntities([x]) == EscapeChar(x)
  {
    ReplaceSingle(x, '&', "&amp;");
    var amp := if x == '&' then "&amp;" else [x];
    if x == '&' {
      ReplaceAbsentChar(amp, '<', "&lt;");
      ReplaceAbsentChar(amp, '>', "&gt;");
      ReplaceAbsentChar(amp, '"', "&quot;");
      ReplaceAbsentChar(amp, '\'', "&#x27;");
    } else {
      ReplaceSingle(x, '<', "&lt;");
      var lt := if x == '<' then "&lt;" else [x];
      if x == '<' {
        ReplaceAbsentChar(lt, '>', "&gt;");
        ReplaceAbsentChar(lt, '"', "&quot;");
        ReplaceAbsentChar(lt, '\'', "&#x27;");
      } else {
        ReplaceSingle(x, '>', "&gt;");
        var gt := if x == '>' then "&gt;" else [x];
        if x == '>' {
          ReplaceAbsentChar(gt, '"', "&quot;");
          ReplaceAbsentChar(gt, '\'', "&#x27;");
        } else {
          ReplaceSingle(x, '"', "&quot;");
          if x == '"' {
            ReplaceAbsentChar("&quot;", '\'', "&#x27;");
          } else {
            ReplaceSingle(x, '\'', "&#x27;");
          }
        }
      }
    }
  }

  /** The replace chain, '&' first, escapes every character exactly once. */
  lemma {:induction false} ReplaceEntitiesIsEscape(t: string)
    ensures ReplaceEntities(t) == EscapeAll(t)
    decreases |t|
  {
    if t != [] {
      assert t == [t[0]] + t[1..];
      ReplaceEntitiesConcat([t[0]], t[1..]);
      ReplaceEntitiesChar(t[0]);
      ReplaceEntitiesIsEscape(t[1..]);
    } else {
      assert ReplaceAll([], "&", "&amp;") == [];
    }
  }

  /** Decoding of the five entities `sanitize_input` produces (the inverse of its escaping). */
  function Unescape(s: string): string
    decreases |s|
  {
    if s == [] then []
    else if StartsWith(s, "&amp;") then "&" + Unescape(s[5..])
    else if StartsWith(s, "&lt;") then "<" + Unescape(s[4..])
    else if StartsWith(s, "&gt;") then ">" + Unescape(s[4..])
    else if StartsWith(s, "&quot;") then "\"" + Unescape(s[6..])
    else if StartsWith(s, "&#x27;") then "'" + Unescape(s[6..])
    else [s[0]] + Unescape(s[1..])
  }

  /** A character other than '&' starts no entity and is decoded as itself. */
  lemma UnescapePlain(c: char, rest: string)
    requires c != '&'
    ensures Unescape([c] + rest) == [c] + Unescape(rest)
  {
    var s := [c] + rest;
    assert s[0] == c && s[1..] == rest;
    assert !StartsWith(s, "&amp;") && !StartsWith(s, "&lt;") && !StartsWith(s, "&gt;") by {
      assert "&amp;"[0] == '&' && "&lt;"[0] == '&' && "&gt;"[0] == '&';
    }
    assert !StartsWith(s, "&quot;") && !StartsWith(s, "&#x27;") by {
      assert "&quot;"[0] == '&' && "&#x27;"[0] == '&';
    }
  }

  /** The entities of '&', '<' and '>' are decoded as those characters. */
  lemma UnescapeBracket(c: char, rest: string)
    requires c == '&' || c == '<' || c == '>'
    ensures Unescape(EscapeChar(c) + rest) == [c] + Unescape(rest)
  {
    var e := EscapeChar(c);
    var s := e + rest;
    assert s[..|e|] == e;
    assert s[|e|..] == rest;
    if c == '&' {
      assert StartsWith(s, "&amp;");
    } else if c == '<' {
      assert s[1] == 'l';
      assert StartsWith(s, "&lt;");
    } else {
      assert s[1] == 'g';
      assert StartsWith(s, "&gt;");
    }
  }

  /** The entity of '"' is decoded as that character. */
  lemma UnescapeDoubleQuote(rest: string)
    ensures Unescape(EscapeChar('"') + rest) == "\"" + Unescape(rest)
  {
    var s := "&quot;" + rest;
    assert s[..6] == "&quot;" && s[6..] == rest;
    assert s[1] == 'q';
  }

  /** The entity of '\'' is decoded as that character. */
  lemma UnescapeApostrophe(rest: string)
    ensures Unescape(EscapeChar('\'') + rest) == "'" + Unescape(rest)
  {
    var s := "&#x27;" + rest;
    assert s[..6] == "&#x27;" && s[6..] == rest;
    assert s[1] == '#';
  }

  /** Decoding undoes the escaping of one character. */
  lemma UnescapeStep(c: char, rest: string)
    ensures Unescape(EscapeChar(c) + rest) == [c] + Unescape(rest)
  {
    if c == '&' || c == '<' || c == '>' {
      UnescapeBracket(c, rest);
    } else if c == '"' {
      UnescapeDoubleQuote(rest);
    } else if c == '\'' {
      UnescapeApostrophe(rest);
    } else {
      UnescapePlain(c, rest);
    }
  }

  lemma {:induction false} UnescapeEscape(t: string)
    ensures Unescape(EscapeAll(t)) == t
    decreases |t|
  {
    if t != [] {
      UnescapeStep(t[0], EscapeAll(t[1..]));
      UnescapeEscape(t[1..]);
      assert t == [t[0]] + t[1..];
    }
  }

  /** Sanitising loses nothing but the tags: decoding the entities gives back the tag-free text. */
  lemma SanitizeRoundTrip(text: string)
    ensures SanitizeInput(PyStr(text)).Ok?
    ensures Unescape(SanitizeInput(PyStr(text)).value) == StripTags(text)
    ensures NoTag(StripTags(text))
  {
    UnescapeEscape(StripTags(text));
  }
}
