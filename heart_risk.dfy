/**
 * `predict_heart_disease_risk` of MedicinaaiV2/risk_model.py: five fields are
 * read, converted and range-checked in a fixed order into the feature vector
 * of the frozen logistic-regression model; the first failure, or any exception
 * of the model, is printed and turned into the score 0.0.
 */
module HeartRisk {
  import opened Wrappers
  import opened PyText
  import opened PyValues
  import opened FrozenModels
  import Utils

  /** The columns the scaler and the classifier were fitted on, in order. */
  const TrainingColumns: seq<string> := ["age", "trestbps", "chol", "thalach", "oldpeak"]

  /** The five features, each with its training column and accepted range. */
  datatype Feature = Age | Systolic | Cholesterol | HeartRate | StDepression {

    function Column(): string {
      match this
      case Age => "age"
      case Systolic => "trestbps"
      case Cholesterol => "chol"
      case HeartRate => "thalach"
      case StDepression => "oldpeak"
    }

    function Low(): real {
      match this
      case Age => 20.0
      case Systolic => 80.0
      case Cholesterol => 100.0
      case HeartRate => 40.0
      case StDepression => 0.0
    }

    function High(): real {
      match this
      case Age => 100.0
      case Systolic => 200.0
      case Cholesterol => 600.0
      case HeartRate => 200.0
      case StDepression => 6.0
    }

    /** The ValueError raised when the value is out of range. */
    function RangeError(): PyException {
      match this
      case Age => ValueError("Age must be between 20 and 100")
      case Systolic => BloodPressureFormatError
      case Cholesterol => ValueError("Cholesterol must be between 100 and 600")
      case HeartRate => ValueError("Heart rate must be between 40 and 200")
      case StDepression => ValueError("ST depression must be between 0 and 6")
    }
  }

  const BloodPressureFormatError: PyException :=
    ValueError("Invalid blood pressure format. Expected format: '120/80'")

  /** The order in which the source checks and appends the features. */
  const FeatureOrder: seq<Feature> := [Age, Systolic, Cholesterol, HeartRate, StDepression]

  /** The text before the first '/' (the whole text when there is none). */
  function SystolicText(bp: string): string {
    Split(bp, '/')[0]
  }

  /**
   * The systolic feature from the blood-pressure value: a value that is not a
   * string has no `split`; a conversion failure and an out-of-range reading
   * are both reported as the blood-pressure format error.
   */
  function CheckSystolic(bp: Value): (r: Result<real, PyException>)
    ensures r.Ok? <==> bp.PyStr? && ParseFloat(SystolicText(bp.s)).Some?
                       && Systolic.Low() <= ParseFloat(SystolicText(bp.s)).value <= Systolic.High()
    ensures r.Ok? ==> r.value == ParseFloat(SystolicText(bp.s)).value
    ensures r.Ok? ==> Systolic.Low() <= r.value <= Systolic.High()
    ensures r.Fail? && bp.PyStr? ==> r.error == Systolic.RangeError()
    ensures !bp.PyStr? ==> r.Fail? && r.error.AttributeError?
  {
    if !bp.PyStr? then Fail(AttributeError("'" + TypeName(bp) + "' object has no attribute 'split'"))
    else
      match ParseFloat(SystolicText(bp.s))
      case Some(x) => if 80.0 <= x <= 200.0 then Ok(x) else Fail(BloodPressureFormatError)
      case None => Fail(BloodPressureFormatError)
  }

  /** The range check of a numeric feature, applied to the outcome of `float()`. */
  function CheckRange(f: Feature, x: Result<real, PyException>): (r: Result<real, PyException>)
    ensures r.Ok? <==> x.Ok? && f.Low() <= x.value <= f.High()
    ensures r.Ok? ==> r.value == x.value
    ensures r.Fail? ==> r.error == if x.Fail? then x.error else f.RangeError()
  {
    var v :- x;
    if f.Low() <= v <= f.High() then Ok(v) else Fail(f.RangeError())
  }

  /**
   * The outcome of each check, in the order the source runs them; a missing
   * key reads as 0 (as '' for the blood pressure).
   */
  function HeartChecks(data: map<string, Value>): (checks: seq<Result<real, PyException>>)
    ensures |checks| == |FeatureOrder|
    ensures forall i :: 0 <= i < |FeatureOrder| && checks[i].Ok? ==>
              FeatureOrder[i].Low() <= checks[i].value <= FeatureOrder[i].High()
  {
    var checks := [CheckRange(Age, ToFloat(Get(data, "age", PyInt(0)))),
                   CheckSystolic(Get(data, "blood_pressure", PyStr(""))),
                   CheckRange(Cholesterol, ToFloat(Get(data, "cholesterol", PyInt(0)))),
                   CheckRange(HeartRate, ToFloat(Get(data, "heart_rate", PyInt(0)))),
                   CheckRange(StDepression, ToFloat(Get(data, "st_depression", PyInt(0))))];
    EachInRange(checks);
    checks
  }

  /** Five outcomes, each within the range of the feature at its position. */
  lemma EachInRange(checks: seq<Result<real, PyException>>)
    requires |checks| == |FeatureOrder|
    requires checks[0].Ok? ==> Age.Low() <= checks[0].value <= Age.High()
    requires checks[1].Ok? ==> Systolic.Low() <= checks[1].value <= Systolic.High()
    requires checks[2].Ok? ==> Cholesterol.Low() <= checks[2].value <= Cholesterol.High()
    requires checks[3].Ok? ==> HeartRate.Low() <= checks[3].value <= HeartRate.High()
    requires checks[4].Ok? ==> StDepression.Low() <= checks[4].value <= StDepression.High()
    ensures forall i :: 0 <= i < |FeatureOrder| && checks[i].Ok? ==>
              FeatureOrder[i].Low() <= checks[i].value <= FeatureOrder[i].High()
  {
    forall i | 0 <= i < |FeatureOrder| && checks[i].Ok?
      ensures FeatureOrder[i].Low() <= checks[i].value <= FeatureOrder[i].High()
    {
      assert i == 0 || i == 1 || i == 2 || i == 3 || i == 4;
    }
  }

  /**
   * Runs the checks in order, appending each value to `acc`; the first check
   * that fails stops the run with its error.
   */
  function Collect(checks: seq<Result<real, PyException>>, acc: seq<real>): (r: Result<seq<real>, PyException>)
    ensures r.Ok? ==> |r.value| == |acc| + |checks| && r.value[..|acc|] == acc
    ensures r.Fail? ==> Fail(r.error) in checks
    decreases |checks|
  {
    if checks == [] then Ok(acc)
    else
      var x :- checks[0];
      var r := Collect(checks[1..], acc + [x]);
      assert r.Ok? ==> r.value[..|acc|] == r.value[..|acc| + 1][..|acc|];
      r
  }

  /**
   * The feature vector the source builds with `features.append`: each check
   * runs only when the ones before it passed.
   */
  function HeartFeatures(data: map<string, Value>): (r: Result<seq<real>, PyException>)
    ensures r.Ok? ==> |r.value| == |TrainingColumns|
                      && forall i :: 0 <= i < |r.value| ==> FeatureOrder[i].Low() <= r.value[i] <= FeatureOrder[i].High()
  {
    var age :- CheckRange(Age, ToFloat(Get(data, "age", PyInt(0))));
    var systolic :- CheckSystolic(Get(data, "blood_pressure", PyStr("")));
    var chol :- CheckRange(Cholesterol, ToFloat(Get(data, "cholesterol", PyInt(0))));
    var rate :- CheckRange(HeartRate, ToFloat(Get(data, "heart_rate", PyInt(0))));
    var oldpeak :- CheckRange(StDepression, ToFloat(Get(data, "st_depression", PyInt(0))));
    Ok([age, systolic, chol, rate, oldpeak])
  }

  /** The line the except clause prints. */
  function PredictionErrorLine(e: PyException): string {
    "Prediction error: " + e.Text()
  }

  /**
   * `float(data.get(key, 0))` followed by the range check of `f`, raising the
   * feature's ValueError when the value is out of range.
   */
  method ReadInRange(data: map<string, Value>, key: string, f: Feature)
    returns (r: Result<real, PyException>)
    ensures r == CheckRange(f, ToFloat(Get(data, key, PyInt(0))))
    ensures r.Ok? ==> f.Low() <= r.value <= f.High()
  {
    var x := ToFloat(Get(data, key, PyInt(0)));
    if x.Fail? {
      return Fail(x.error);
    }
    if !(f.Low() <= x.value <= f.High()) {
      return Fail(f.RangeError());
    }
    return Ok(x.value);
  }

  /**
   * `float(bp.split('/')[0])` for `bp = data.get('blood_pressure', '')`; the
   * conversion error and the range error are both re-raised as the format error.
   */
  method ReadSystolic(data: map<string, Value>) returns (r: Result<real, PyException>)
    ensures r == CheckSystolic(Get(data, "blood_pressure", PyStr("")))
    ensures r.Ok? ==> 80.0 <= r.value <= 200.0
  {
    var bp := Get(data, "blood_pressure", PyStr(""));
    if !bp.PyStr? {
      return Fail(AttributeError("'" + TypeName(bp) + "' object has no attribute 'split'"));
    }
    var systolic := ParseFloat(Split(bp.s, '/')[0]);
    if systolic.None? || !(80.0 <= systolic.value <= 200.0) {
      return Fail(BloodPressureFormatError);
    }
    return Ok(systolic.value);
  }

  /**
   * The feature-extraction part of the try block: each field is converted,
   * range-checked and appended in turn; the first failure is raised.
   */
  method ExtractHeartFeatures(data: map<string, Value>) returns (r: Result<seq<real>, PyException>)
    ensures r == HeartFeatures(data)
  {
    var features: seq<real> := [];

    var age := ReadInRange(data, "age", Age);
    if age.Fail? {
      return Fail(age.error);
    }
    features := features + [age.value];

    // only the systolic part of the blood pressure is a feature
    var systolic := ReadSystolic(data);
    if systolic.Fail? {
      return Fail(systolic.error);
    }
    features := features + [systolic.value];

    var chol := ReadInRange(data, "cholesterol", Cholesterol);
    if chol.Fail? {
      return Fail(chol.error);
    }
    features := features + [chol.value];

    var rate := ReadInRange(data, "heart_rate", HeartRate);
    if rate.Fail? {
      return Fail(rate.error);
    }
    features := features + [rate.value];

    var oldpeak := ReadInRange(data, "st_depression", StDepression);
    if oldpeak.Fail? {
      return Fail(oldpeak.error);
    }
    features := features + [oldpeak.value];

    assert features == [age.value, systolic.value, chol.value, rate.value, oldpeak.value];
    return Ok(features);
  }

  /**
   * `predict_heart_disease_risk(data)` against the model fitted at import.
   * `printed` is the line the except clause prints, if any.
   */
  method PredictHeartDiseaseRisk(data: map<string, Value>, model: FrozenModel)
    returns (score: real, printed: Option<string>)
    ensures printed.Some? ==> score == 0.0
    ensures HeartFeatures(data).Fail? ==>
              score == 0.0 && printed == Some(PredictionErrorLine(HeartFeatures(data).error))
    ensures HeartFeatures(data).Ok? ==>
              var p := PositiveClassProbability(model, None, HeartFeatures(data).value);
              (p.Ok? ==> score == p.value && printed == None)
              && (p.Fail? ==> score == 0.0 && printed == Some(PredictionErrorLine(p.error)))
  {
    var features := ExtractHeartFeatures(data);
    if features.Fail? {
      score, printed := 0.0, Some(PredictionErrorLine(features.error));
      return;
    }

    // Scale the vector and take the probability of the positive class
    var risk := PositiveClassProbability(model, None, features.value);
    if risk.Fail? {
      score, printed := 0.0, Some(PredictionErrorLine(risk.error));
      return;
    }
    score, printed := risk.value, None;
  }

  // ---------------------------------------------------------------------------
  // The vector as the checks run one after another
  // ---------------------------------------------------------------------------

  /** The run succeeds exactly when every check passes, and then lists their values after `acc`. */
  lemma {:induction false} CollectPasses(checks: seq<Result<real, PyException>>, acc: seq<real>)
    ensures Collect(checks, acc).Ok? <==> forall i :: 0 <= i < |checks| ==> checks[i].Ok?
    ensures Collect(checks, acc).Ok? ==>
              var v := Collect(checks, acc).value;
              |v| == |acc| + |checks| && v[..|acc|] == acc
              && forall i :: 0 <= i < |checks| ==> v[|acc| + i] == checks[i].value
    decreases |checks|
  {
    if checks != [] && checks[0].Ok? {
      var rest := checks[1..];
      var acc' := acc + [checks[0].value];
      CollectPasses(rest, acc');
      assert forall i :: 0 < i < |checks| ==> checks[i] == rest[i - 1];
      if Collect(checks, acc).Ok? {
        var v := Collect(checks, acc).value;
        assert v[..|acc'|] == acc';
        assert v[..|acc|] == acc'[..|acc|];
      }
    }
  }

  /** A failed run reports the error of its first failing check. */
  lemma {:induction false} CollectFirstFailure(checks: seq<Result<real, PyException>>, acc: seq<real>)
    requires Collect(checks, acc).Fail?
    ensures exists k :: 0 <= k < |checks| && checks[k] == Fail(Collect(checks, acc).error)
                        && forall i :: 0 <= i < k ==> checks[i].Ok?
    decreases |checks|
  {
    if checks[0].Ok? {
      var rest := checks[1..];
      CollectFirstFailure(rest, acc + [checks[0].value]);
      var k :| 0 <= k < |rest| && rest[k] == Fail(Collect(checks, acc).error)
                && forall i :: 0 <= i < k ==> rest[i].Ok?;
      assert checks[k + 1] == rest[k];
      assert forall i :: 0 < i <= k ==> checks[i] == rest[i - 1];
    } else {
      assert checks[0] == Fail(Collect(checks, acc).error);
    }
  }

  /** Running five checks is the chain of early exits over them. */
  lemma CollectFive(c: seq<Result<real, PyException>>)
    requires |c| == 5
    ensures Collect(c, []) == (var a :- c[0]; var b :- c[1]; var d :- c[2]; var e :- c[3]; var f :- c[4];
                               Ok([a, b, d, e, f]))
  {
    if c[0].Ok? {
      var a := c[0].value;
      assert [] + [a] == [a];
      assert Collect(c, []) == Collect(c[1..], [a]);
      if c[1].Ok? {
        var b := c[1].value;
        assert c[1..][1..] == c[2..] && [a] + [b] == [a, b];
        assert Collect(c, []) == Collect(c[2..], [a, b]);
        if c[2].Ok? {
          var d := c[2].value;
          assert c[2..][1..] == c[3..] && [a, b] + [d] == [a, b, d];
          assert Collect(c, []) == Collect(c[3..], [a, b, d]);
          if c[3].Ok? {
            var e := c[3].value;
            assert c[3..][1..] == c[4..] && [a, b, d] + [e] == [a, b, d, e];
            assert Collect(c, []) == Collect(c[4..], [a, b, d, e]);
            assert c[4..][1..] == [];
            if c[4].Ok? {
              var f := c[4].value;
              assert [a, b, d, e] + [f] == [a, b, d, e, f];
              assert Collect(c, []) == Collect(c[4..][1..], [a, b, d, e, f]);
            }
          }
        }
      }
    }
  }

  /** The extraction is the checks of the fixed feature order, run in turn from an empty vector. */
  lemma HeartFeaturesCollect(data: map<string, Value>)
    ensures HeartFeatures(data) == Collect(HeartChecks(data), [])
  {
    CollectFive(HeartChecks(data));
  }

  /** A run of in-range checks over the feature order gives an in-range vector, one value per check. */
  lemma CollectFeatures(c: seq<Result<real, PyException>>)
    requires |c| == |FeatureOrder|
    requires forall i :: 0 <= i < |c| && c[i].Ok? ==> FeatureOrder[i].Low() <= c[i].value <= FeatureOrder[i].High()
    ensures Collect(c, []).Ok? <==> forall i :: 0 <= i < |c| ==> c[i].Ok?
    ensures Collect(c, []).Ok? ==>
              var v := Collect(c, []).value;
              |v| == |TrainingColumns|
              && forall i :: 0 <= i < |v| ==>
                   FeatureOrder[i].Column() == TrainingColumns[i]
                   && v[i] == c[i].value
                   && FeatureOrder[i].Low() <= v[i] <= FeatureOrder[i].High()
  {
    CollectPasses(c, []);
    if Collect(c, []).Ok? {
      var v := Collect(c, []).value;
      forall i | 0 <= i < |v| ensures v[i] == c[i].value {
        assert v[0 + i] == c[i].value;
      }
    }
  }

  /**
   * The vector exists exactly when all five checks pass; it then holds their
   * values in the order of the training columns, each within its range.
   */
  lemma HeartFeaturesPass(data: map<string, Value>)
    ensures HeartFeatures(data).Ok? <==> forall i :: 0 <= i < |FeatureOrder| ==> HeartChecks(data)[i].Ok?
    ensures HeartFeatures(data).Ok? ==>
              var v := HeartFeatures(data).value;
              |v| == |TrainingColumns|
              && forall i :: 0 <= i < |v| ==>
                   FeatureOrder[i].Column() == TrainingColumns[i]
                   && v[i] == HeartChecks(data)[i].value
                   && FeatureOrder[i].Low() <= v[i] <= FeatureOrder[i].High()
  {
    HeartFeaturesCollect(data);
    CollectFeatures(HeartChecks(data));
  }

  /** A failed extraction raises the error of the first check that fails; later fields are not read. */
  lemma HeartFeaturesFirstFailure(data: map<string, Value>)
    requires HeartFeatures(data).Fail?
    ensures exists k :: 0 <= k < |FeatureOrder| && HeartChecks(data)[k] == Fail(HeartFeatures(data).error)
                        && forall i :: 0 <= i < k ==> HeartChecks(data)[i].Ok?
  {
    HeartFeaturesCollect(data);
    CollectFirstFailure(HeartChecks(data), []);
  }

  // ---------------------------------------------------------------------------
  // What particular requests give
  // ---------------------------------------------------------------------------

  /** Only the text before the first '/' is read; the diastolic part may be anything. */
  lemma SystolicIgnoresDiastolic(systolic: string, rest: string)
    requires '/' !in systolic
    ensures CheckSystolic(PyStr(systolic + "/" + rest)) == CheckSystolic(PyStr(systolic))
  {
    var bp := systolic + "/" + rest;
    assert bp[|systolic|] == '/';
    assert forall j :: 0 <= j < |systolic| ==> bp[j] == systolic[j];
    assert FirstIndex(bp, '/') == |systolic|;
    assert bp[..|systolic|] == systolic;
    assert systolic[..|systolic|] == systolic;
  }

  /** A missing numeric field reads as 0, which only the ST depression's range admits. */
  lemma MissingNumberReadsZero(data: map<string, Value>, key: string, f: Feature)
    requires key !in data && f != Systolic
    ensures CheckRange(f, ToFloat(Get(data, key, PyInt(0))))
            == if f == StDepression then Ok(0.0) else Fail(f.RangeError())
  {
    assert ToFloat(Get(data, key, PyInt(0))) == Ok(0.0);
  }

  /** A missing blood pressure reads as '', which is not a number. */
  lemma MissingBloodPressureRefused(data: map<string, Value>)
    requires "blood_pressure" !in data
    ensures CheckSystolic(Get(data, "blood_pressure", PyStr(""))) == Fail(BloodPressureFormatError)
  {
    assert SystolicText("") == "";
  }

  /** A request without an age is refused with the age's range error, whatever else it holds. */
  lemma MissingAgeRefused(data: map<string, Value>)
    requires "age" !in data
    ensures HeartFeatures(data) == Fail(ValueError("Age must be between 20 and 100"))
  {
    MissingNumberReadsZero(data, "age", Age);
  }

  /** A reading "s/d" in the accepted systolic range gives the systolic value. */
  lemma SystolicOfReading(systolic: int, diastolic: int)
    requires 80 <= systolic <= 200
    ensures CheckSystolic(PyStr(IntText(systolic) + "/" + IntText(diastolic))) == Ok(systolic as real)
  {
    var text := IntText(systolic);
    Utils.NoSlashInNumber(systolic);
    SystolicIgnoresDiastolic(text, IntText(diastolic));
    assert SystolicText(text) == text by {
      assert text[..FirstIndex(text, '/')] == text;
    }
    ParseFloatText(systolic);
  }

  /** Five in-range values, the blood pressure's already read, make the vector of those values. */
  lemma HeartFeaturesOfValues(data: map<string, Value>, age: int, systolic: int, chol: int, rate: int,
                              oldpeak: real)
    requires 20 <= age <= 100 && 100 <= chol <= 600 && 40 <= rate <= 200 && 0.0 <= oldpeak <= 6.0
    requires "age" in data && data["age"] == PyInt(age)
    requires CheckSystolic(Get(data, "blood_pressure", PyStr(""))) == Ok(systolic as real)
    requires "cholesterol" in data && data["cholesterol"] == PyInt(chol)
    requires "heart_rate" in data && data["heart_rate"] == PyInt(rate)
    requires "st_depression" in data && data["st_depression"] == PyFloat(oldpeak)
    ensures HeartFeatures(data) == Ok([age as real, systolic as real, chol as real, rate as real, oldpeak])
  {
  }

  /**
   * A request with the five fields as the web form sends them, all in range,
   * gives the vector of their values; other keys are ignored.
   */
  lemma HeartAcceptsWellFormed(data: map<string, Value>, age: int, systolic: int, diastolic: int,
                               chol: int, rate: int, oldpeak: real)
    requires 20 <= age <= 100 && 80 <= systolic <= 200 && 100 <= chol <= 600 && 40 <= rate <= 200
    requires 0.0 <= oldpeak <= 6.0
    requires "age" in data && data["age"] == PyInt(age)
    requires "blood_pressure" in data && data["blood_pressure"] == PyStr(IntText(systolic) + "/" + IntText(diastolic))
    requires "cholesterol" in data && data["cholesterol"] == PyInt(chol)
    requires "heart_rate" in data && data["heart_rate"] == PyInt(rate)
    requires "st_depression" in data && data["st_depression"] == PyFloat(oldpeak)
    ensures HeartFeatures(data) == Ok([age as real, systolic as real, chol as real, rate as real, oldpeak])
  {
    SystolicOfReading(systolic, diastolic);
    HeartFeaturesOfValues(data, age, systolic, chol, rate, oldpeak);
  }

  /**
   * Against a model fitted on the training columns, a vector that passed all
   * checks always has the width the scaler expects: only an output of the
   * wrong shape can still fail.
   */
  lemma HeartVectorFitsModel(data: map<string, Value>, model: FrozenModel)
    requires model.columns == TrainingColumns
    requires HeartFeatures(data).Ok?
    ensures PositiveClassProbability(model, None, HeartFeatures(data).value).Fail? ==>
              PositiveClassProbability(model, None, HeartFeatures(data).value).error.IndexError?
  {
    HeartFeaturesPass(data);
  }
}
