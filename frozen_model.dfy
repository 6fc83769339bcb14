/**
 * A scaler and classifier pair fitted once when the module is imported and
 * only read afterwards. Their numerics are not modelled: `transform` and
 * `predictProba` are arbitrary functions over rows of features.
 */
module FrozenModels {
  import opened Wrappers
  import opened PyText
  import opened PyValues

  datatype FrozenModel = FrozenModel(
    columns: seq<string>,                              // the training columns, in order
    transform: seq<seq<real>> -> seq<seq<real>>,       // scaler.transform
    predictProba: seq<seq<real>> -> seq<seq<real>>     // classifier.predict_proba
  )

  /**
   * `model.predict_proba(scaler.transform(rows))[0][1]` for the single row
   * `row`. The scaler refuses a row of the wrong width, and a frame whose
   * column names differ from the training columns; indexing an output that is
   * too small raises IndexError.
   */
  function PositiveClassProbability(m: FrozenModel, names: Option<seq<string>>, row: seq<real>)
    : (r: Result<real, PyException>)
    ensures r.Ok? ==> |row| == |m.columns| && (names.Some? ==> names.value == m.columns)
    ensures r.Ok? <==>
              |row| == |m.columns| && (names.Some? ==> names.value == m.columns)
              && |m.predictProba(m.transform([row]))| >= 1
              && |m.predictProba(m.transform([row]))[0]| >= 2
    ensures r.Ok? ==> r.value == m.predictProba(m.transform([row]))[0][1]
  {
    if |row| != |m.columns| then
      Fail(ValueError("X has " + IntText(|row|) + " features, but StandardScaler is expecting "
                      + IntText(|m.columns|) + " features as input."))
    else if names.Some? && names.value != m.columns then
      Fail(ValueError("The feature names should match those that were passed during fit."))
    else
      var probabilities := m.predictProba(m.transform([row]));
      if |probabilities| == 0 then
        Fail(IndexError("index 0 is out of bounds for axis 0 with size 0"))
      else if |probabilities[0]| < 2 then
        Fail(IndexError("index 1 is out of bounds for axis 0 with size " + IntText(|probabilities[0]|)))
      else
        Ok(probabilities[0][1])
  }
}
