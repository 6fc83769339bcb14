/**
 * `predict_diabetes_risk` of diabetes_model.py: six numeric fields are read
 * into a dictionary, the smoking history is one-hot encoded over the
 * categories taken from the training columns, the dictionary is laid out in
 * the training column order (missing columns filled with 0), and the positive
 * class probability of the frozen random forest is returned; any exception is
 * re-raised with the prefix "Error predicting diabetes risk: ".
 */
module DiabetesRisk {
  import opened Wrappers
  import opened PyText
  import opened PyValues
  import opened FrozenModels

  /** The numeric columns of the training frame, in order. */
  const NumericColumns: seq<string> :=
    ["age", "bmi", "HbA1c_level", "blood_glucose_level", "hypertension", "heart_disease"]

  /** The prefix `get_dummies` puts before each smoking-history value. */
  const SmokingPrefix: string := "smoking_"

  /** One dummy column per smoking-history value of the training data. */
  function DummyColumns(values: seq<string>): (cols: seq<string>)
    ensures |cols| == |values|
    ensures forall j :: 0 <= j < |values| ==> cols[j] == SmokingPrefix + values[j]
  {
    seq(|values|, j requires 0 <= j < |values| => SmokingPrefix + values[j])
  }

  /** The columns of the training frame after `get_dummies`. */
  function TrainingColumns(values: seq<string>): seq<string> {
    NumericColumns + DummyColumns(values)
  }

  // ---------------------------------------------------------------------------
  // The smoking categories (computed once, at import)
  // ---------------------------------------------------------------------------

  /**
   * The category list as written: every column that starts with the prefix,
   * with every occurrence of the prefix removed by `str.replace`.
   */
  function SmokingCategoriesAsWritten(columns: seq<string>): (cats: seq<string>)
    ensures |cats| <= |columns|
    decreases |columns|
  {
    if columns == [] then []
    else
      var rest := SmokingCategoriesAsWritten(columns[1..]);
      if StartsWith(columns[0], SmokingPrefix) then [ReplaceAll(columns[0], SmokingPrefix, "")] + rest
      else rest
  }

  /** The category list as intended: the prefix removed once, from the front. */
  function SmokingCategories(columns: seq<string>): (cats: seq<string>)
    ensures |cats| <= |columns|
    decreases |columns|
  {
    if columns == [] then []
    else
      var rest := SmokingCategories(columns[1..]);
      if StartsWith(columns[0], SmokingPrefix) then [columns[0][|SmokingPrefix|..]] + rest
      else rest
  }

  /**
   * The list comprehension as intended: a category for each prefixed column,
   * the column without its prefix, and no other.
   */
  lemma {:induction false} SmokingCategoriesMeaning(columns: seq<string>)
    ensures forall col :: col in columns && StartsWith(col, SmokingPrefix) ==>
              col[|SmokingPrefix|..] in SmokingCategories(columns)
    ensures forall c :: c in SmokingCategories(columns) ==> SmokingPrefix + c in columns
    decreases |columns|
  {
    if columns != [] {
      SmokingCategoriesMeaning(columns[1..]);
      assert forall col :: col in columns ==> col == columns[0] || col in columns[1..];
      if StartsWith(columns[0], SmokingPrefix) {
        assert SmokingPrefix + columns[0][|SmokingPrefix|..] == columns[0];
      }
    }
  }

  /**
   * The list comprehension as written: a category for each prefixed column,
   * the column with every occurrence of the prefix replaced, and no other.
   */
  lemma {:induction false} SmokingCategoriesAsWrittenMeaning(columns: seq<string>)
    ensures forall col :: col in columns && StartsWith(col, SmokingPrefix) ==>
              ReplaceAll(col, SmokingPrefix, "") in SmokingCategoriesAsWritten(columns)
    ensures forall c :: c in SmokingCategoriesAsWritten(columns) ==>
              exists col :: col in columns && StartsWith(col, SmokingPrefix) && c == ReplaceAll(col, SmokingPrefix, "")
    decreases |columns|
  {
    if columns != [] {
      SmokingCategoriesAsWrittenMeaning(columns[1..]);
      assert forall col :: col in columns ==> col == columns[0] || col in columns[1..];
      assert forall col :: col in columns[1..] ==> col in columns;
    }
  }

  /** No numeric column carries the prefix (none even starts with 's'). */
  lemma NumericColumnsUnprefixed()
    ensures forall i :: 0 <= i < |NumericColumns| ==> !StartsWith(NumericColumns[i], SmokingPrefix)
  {
    forall i | 0 <= i < |NumericColumns|
      ensures !StartsWith(NumericColumns[i], SmokingPrefix)
    {
      assert NumericColumns[i][0] != 's';
    }
  }

  /** The categories of a concatenation are those of its parts. */
  lemma {:induction false} CategoriesConcat(a: seq<string>, b: seq<string>)
    ensures SmokingCategories(a + b) == SmokingCategories(a) + SmokingCategories(b)
    decreases |a|
  {
    if a == [] {
      assert a + b == b;
    } else {
      assert (a + b)[0] == a[0] && (a + b)[1..] == a[1..] + b;
      CategoriesConcat(a[1..], b);
    }
  }

  /** Taking the prefix off each dummy column gives back the smoking-history values. */
  lemma {:induction false} CategoriesOfDummies(values: seq<string>)
    ensures SmokingCategories(DummyColumns(values)) == values
    decreases |values|
  {
    if values != [] {
      var cols := DummyColumns(values);
      assert cols[0] == SmokingPrefix + values[0];
      assert cols[0][..|SmokingPrefix|] == SmokingPrefix && cols[0][|SmokingPrefix|..] == values[0];
      assert cols[1..] == DummyColumns(values[1..]);
      CategoriesOfDummies(values[1..]);
    }
  }

  /**
   * The intended category list is exactly the training data's smoking-history
   * values, so `smoking_<category>` is always one of the training columns.
   */
  lemma SmokingCategoriesOfTraining(values: seq<string>)
    ensures SmokingCategories(TrainingColumns(values)) == values
    ensures forall j :: 0 <= j < |values| ==> SmokingPrefix + values[j] in TrainingColumns(values)
  {
    CategoriesConcat(NumericColumns, DummyColumns(values));
    NumericColumnsUnprefixed();
    var n := NumericColumns;
    assert SmokingCategories(n) == [] by {
      assert n[1..][1..][1..][1..][1..][1..] == [];
    }
    CategoriesOfDummies(values);
    forall j | 0 <= j < |values| ensures SmokingPrefix + values[j] in TrainingColumns(values) {
      assert TrainingColumns(values)[|n| + j] == SmokingPrefix + values[j];
    }
  }

  /** `str.replace` removes only the leading prefix of a column whose rest does not contain it. */
  lemma ReplacePrefixOnce(col: string)
    requires StartsWith(col, SmokingPrefix)
    requires !Contains(col[|SmokingPrefix|..], SmokingPrefix)
    ensures ReplaceAll(col, SmokingPrefix, "") == col[|SmokingPrefix|..]
  {
    var rest := col[|SmokingPrefix|..];
    assert col == SmokingPrefix + rest;
    ReplaceAllLeading(rest, SmokingPrefix, "");
    ReplaceAllAbsent(rest, SmokingPrefix, "");
  }

  /** The two category lists agree as long as no column repeats the prefix after its start. */
  lemma {:induction false} CategoriesAgree(columns: seq<string>)
    requires forall i :: 0 <= i < |columns| && StartsWith(columns[i], SmokingPrefix) ==>
               !Contains(columns[i][|SmokingPrefix|..], SmokingPrefix)
    ensures SmokingCategoriesAsWritten(columns) == SmokingCategories(columns)
    decreases |columns|
  {
    if columns != [] {
      if StartsWith(columns[0], SmokingPrefix) {
        ReplacePrefixOnce(columns[0]);
      }
      assert forall i :: 0 < i < |columns| ==> columns[1..][i - 1] == columns[i];
      CategoriesAgree(columns[1..]);
    }
  }

  /**
   * For smoking-history values that do not contain the prefix, the category
   * list as written is the list of values.
   */
  lemma SmokingCategoriesAsWrittenOfTraining(values: seq<string>)
    requires forall j :: 0 <= j < |values| ==> !Contains(values[j], SmokingPrefix)
    ensures SmokingCategoriesAsWritten(TrainingColumns(values)) == values
  {
    var cols := TrainingColumns(values);
    NumericColumnsUnprefixed();
    forall i | 0 <= i < |cols| && StartsWith(cols[i], SmokingPrefix)
      ensures !Contains(cols[i][|SmokingPrefix|..], SmokingPrefix)
    {
      var j := i - |NumericColumns|;
      assert cols[i] == SmokingPrefix + values[j];
      assert cols[i][|SmokingPrefix|..] == values[j];
    }
    CategoriesAgree(cols);
    SmokingCategoriesOfTraining(values);
  }

  /**
   * A smoking-history value that itself contains "smoking_" loses it: the
   * value "smoking_x" gives the category "x", whose key "smoking_x" is not a
   * training column.
   */
  lemma PrefixRemovedTwice()
    ensures TrainingColumns(["smoking_x"]) == NumericColumns + ["smoking_smoking_x"]
    ensures SmokingCategoriesAsWritten(TrainingColumns(["smoking_x"])) == ["x"]
    ensures SmokingCategories(TrainingColumns(["smoking_x"])) == ["smoking_x"]
    ensures SmokingPrefix + "x" !in TrainingColumns(["smoking_x"])
  {
    var cols := TrainingColumns(["smoking_x"]);
    assert SmokingPrefix + "smoking_x" == "smoking_smoking_x";
    assert DummyColumns(["smoking_x"]) == ["smoking_smoking_x"];
    var col := "smoking_smoking_x";
    NumericColumnsUnprefixed();
    assert SmokingCategoriesAsWritten(cols) == SmokingCategoriesAsWritten(NumericColumns + [col]);
    assert ReplaceAll(col, SmokingPrefix, "") == "x" by {
      assert col == SmokingPrefix + "smoking_x";
      ReplaceAllLeading("smoking_x", SmokingPrefix, "");
      assert "smoking_x" == SmokingPrefix + "x";
      ReplaceAllLeading("x", SmokingPrefix, "");
    }
    var n := NumericColumns + [col];
    assert n[1..][1..][1..][1..][1..][1..] == [col];
    assert StartsWith(col, SmokingPrefix);
    SmokingCategoriesOfTraining(["smoking_x"]);
    assert "smoking_x" != col;
  }

  // ---------------------------------------------------------------------------
  // The feature dictionary
  // ---------------------------------------------------------------------------

  /** `float(data[key])`: the key is looked up first. */
  function FloatField(data: map<string, Value>, key: string): (r: Result<real, PyException>)
    ensures key !in data ==> r == Fail(KeyError(key))
    ensures key in data ==> r == ToFloat(data[key])
  {
    var v :- Lookup(data, key);
    ToFloat(v)
  }

  /** `int(data[key])`. */
  function IntField(data: map<string, Value>, key: string): (r: Result<int, PyException>)
    ensures key !in data ==> r == Fail(KeyError(key))
    ensures key in data ==> r == ToInt(data[key])
  {
    var v :- Lookup(data, key);
    ToInt(v)
  }

  /** The request keys the numeric columns are read from, in the order of the dictionary literal. */
  const RequestKeys: seq<string> :=
    ["age", "bmi", "hba1c_level", "blood_glucose_level", "hypertension", "heart_disease"]

  /** The i-th value of the literal: `float(data[key])` for the first four, `int(data[key])` for the two flags. */
  function ReadColumn(data: map<string, Value>, i: nat): Result<real, PyException>
    requires i < |RequestKeys|
  {
    if i < 4 then FloatField(data, RequestKeys[i])
    else
      var n :- IntField(data, RequestKeys[i]);
      Ok(n as real)
  }

  /**
   * The dictionary literal over the outcomes of its six values: they are
   * evaluated in order and the first exception stops the evaluation. Note the
   * column 'HbA1c_level', read from the request key 'hba1c_level'.
   */
  function RecordOf(outcomes: seq<Result<real, PyException>>): Result<map<string, real>, PyException>
    requires |outcomes| == |NumericColumns|
  {
    var age :- outcomes[0];
    var bmi :- outcomes[1];
    var hba1c :- outcomes[2];
    var glucose :- outcomes[3];
    var hypertension :- outcomes[4];
    var heartDisease :- outcomes[5];
    Ok(map["age" := age, "bmi" := bmi, "HbA1c_level" := hba1c, "blood_glucose_level" := glucose,
           "hypertension" := hypertension, "heart_disease" := heartDisease])
  }

  /** The record exists exactly when every value does, and then has exactly the numeric columns as keys. */
  lemma RecordOfPasses(outcomes: seq<Result<real, PyException>>)
    requires |outcomes| == |NumericColumns|
    ensures RecordOf(outcomes).Ok? <==> forall i :: 0 <= i < |outcomes| ==> outcomes[i].Ok?
    ensures RecordOf(outcomes).Ok? ==> forall k :: k in RecordOf(outcomes).value <==> k in NumericColumns
  {
    if !RecordOf(outcomes).Ok? {
      RecordOfFirstFailure(outcomes);
    }
  }

  /** Each numeric column holds the value at its position. */
  lemma RecordOfValues(outcomes: seq<Result<real, PyException>>)
    requires |outcomes| == |NumericColumns| && RecordOf(outcomes).Ok?
    ensures forall i :: 0 <= i < |outcomes| ==> outcomes[i] == Ok(RecordOf(outcomes).value[NumericColumns[i]])
  {
    RecordOfPasses(outcomes);
    var m := RecordOf(outcomes).value;
    forall i | 0 <= i < |outcomes| ensures outcomes[i] == Ok(m[NumericColumns[i]]) {
      assert i == 0 || i == 1 || i == 2 || i == 3 || i == 4 || i == 5;
    }
  }

  /** A failed record carries the error of the first value that fails. */
  lemma RecordOfFirstFailure(outcomes: seq<Result<real, PyException>>)
    requires |outcomes| == |NumericColumns| && RecordOf(outcomes).Fail?
    ensures exists k :: 0 <= k < |outcomes| && outcomes[k] == Fail(RecordOf(outcomes).error)
                        && forall i :: 0 <= i < k ==> outcomes[i].Ok?
  {
    var k := if outcomes[0].Fail? then 0
             else if outcomes[1].Fail? then 1
             else if outcomes[2].Fail? then 2
             else if outcomes[3].Fail? then 3
             else if outcomes[4].Fail? then 4
             else 5;
    assert outcomes[k] == Fail(RecordOf(outcomes).error);
    assert forall i :: 0 <= i < k ==> outcomes[i].Ok?;
  }

  /** `{'age': float(data['age']), ...}`: exactly the six numeric columns, when every read succeeds. */
  function NumericRecord(data: map<string, Value>): (r: Result<map<string, real>, PyException>)
    ensures r.Ok? ==> forall k :: k in r.value <==> k in NumericColumns
  {
    var outcomes := seq(|RequestKeys|, i requires 0 <= i < |RequestKeys| => ReadColumn(data, i));
    RecordOfPasses(outcomes);
    RecordOf(outcomes)
  }

  /** The outcomes of the six reads, in the order of the literal. */
  function ColumnReads(data: map<string, Value>): (outcomes: seq<Result<real, PyException>>)
    ensures |outcomes| == |NumericColumns|
    ensures NumericRecord(data) == RecordOf(outcomes)
  {
    seq(|RequestKeys|, i requires 0 <= i < |RequestKeys| => ReadColumn(data, i))
  }

  /** The record exists exactly when all six reads succeed. */
  lemma NumericRecordPasses(data: map<string, Value>)
    ensures NumericRecord(data).Ok? <==> forall i :: 0 <= i < |RequestKeys| ==> ReadColumn(data, i).Ok?
  {
    var outcomes := ColumnReads(data);
    RecordOfPasses(outcomes);
    assert forall i :: 0 <= i < |RequestKeys| ==> outcomes[i] == ReadColumn(data, i);
  }

  /** Each numeric column of the record holds the value read from its request key. */
  lemma NumericRecordValues(data: map<string, Value>)
    requires NumericRecord(data).Ok?
    ensures forall i :: 0 <= i < |RequestKeys| ==> ReadColumn(data, i) == Ok(NumericRecord(data).value[NumericColumns[i]])
  {
    var outcomes := ColumnReads(data);
    RecordOfPasses(outcomes);
    RecordOfValues(outcomes);
    assert forall i :: 0 <= i < |RequestKeys| ==> outcomes[i] == ReadColumn(data, i);
  }

  /** A failed record raises the error of the first read that fails; later keys are not read. */
  lemma NumericRecordFirstFailure(data: map<string, Value>)
    requires NumericRecord(data).Fail?
    ensures exists k :: 0 <= k < |RequestKeys| && ReadColumn(data, k) == Fail(NumericRecord(data).error)
                        && forall i :: 0 <= i < k ==> ReadColumn(data, i).Ok?
  {
    var outcomes := ColumnReads(data);
    RecordOfFirstFailure(outcomes);
    assert forall i :: 0 <= i < |RequestKeys| ==> outcomes[i] == ReadColumn(data, i);
  }

  /** `1 if smoking_status == category else 0`: only a string equal to the category matches. */
  function Indicator(status: Value, category: string): real {
    if status == PyStr(category) then 1.0 else 0.0
  }

  /** The dummy entries the loop writes: `smoking_<c>` for each category c. */
  function OneHot(status: Value, categories: seq<string>): (entries: map<string, real>)
    ensures forall k :: k in entries ==>
              StartsWith(k, SmokingPrefix) && k[|SmokingPrefix|..] in categories
              && entries[k] == Indicator(status, k[|SmokingPrefix|..])
  {
    var keys := set c | c in categories :: SmokingPrefix + c;
    assert forall k :: k in keys ==> StartsWith(k, SmokingPrefix) && k[|SmokingPrefix|..] in categories;
    map k | k in keys :: Indicator(status, k[|SmokingPrefix|..])
  }

  /** The keys of the one-hot entries, and the value under each. */
  lemma OneHotEntries(status: Value, categories: seq<string>, c: string)
    ensures SmokingPrefix + c in OneHot(status, categories) <==> c in categories
    ensures c in categories ==> OneHot(status, categories)[SmokingPrefix + c] == Indicator(status, c)
    ensures forall k :: k in OneHot(status, categories) ==> StartsWith(k, SmokingPrefix)
  {
    forall k | k in OneHot(status, categories) ensures StartsWith(k, SmokingPrefix) {
      var d :| d in categories && k == SmokingPrefix + d;
      assert k[..|SmokingPrefix|] == SmokingPrefix;
    }
    if SmokingPrefix + c in OneHot(status, categories) {
      var d :| d in categories && SmokingPrefix + c == SmokingPrefix + d;
      assert c == (SmokingPrefix + c)[|SmokingPrefix|..] == d;
    }
  }

  /** One more category adds (or overwrites) its entry. */
  lemma OneHotStep(status: Value, categories: seq<string>, i: nat)
    requires i < |categories|
    ensures OneHot(status, categories[..i + 1])
            == OneHot(status, categories[..i])[SmokingPrefix + categories[i] := Indicator(status, categories[i])]
  {
    var c := categories[i];
    var before, after := categories[..i], categories[..i + 1];
    assert after == before + [c];
    var m := OneHot(status, before)[SmokingPrefix + c := Indicator(status, c)];
    forall k | k in OneHot(status, after) ensures k in m && m[k] == OneHot(status, after)[k] {
      var d :| d in after && k == SmokingPrefix + d;
      OneHotEntries(status, after, d);
      OneHotEntries(status, before, d);
    }
    forall k | k in m ensures k in OneHot(status, after) {
      if k != SmokingPrefix + c {
        var d :| d in before && k == SmokingPrefix + d;
        OneHotEntries(status, after, d);
      } else {
        OneHotEntries(status, after, c);
      }
    }
  }

  /** Updating a union is updating its right-hand side. */
  lemma UpdateUnion(a: map<string, real>, b: map<string, real>, k: string, v: real)
    ensures (a + b)[k := v] == a + b[k := v]
  {
    var l, r := (a + b)[k := v], a + b[k := v];
    assert l.Keys == r.Keys;
    forall key | key in l ensures l[key] == r[key] {
    }
  }

  /**
   * The loop of lines 57-58: for each category, in order, the entry
   * `smoking_<category>` is set to 1 when the status equals the category and
   * to 0 otherwise.
   */
  method EncodeSmoking(record: map<string, real>, status: Value, categories: seq<string>)
    returns (features: map<string, real>)
    ensures features == record + OneHot(status, categories)
  {
    features := record;
    for i := 0 to |categories|
      invariant features == record + OneHot(status, categories[..i])
    {
      var category := categories[i];
      ghost var before := OneHot(status, categories[..i]);
      features := features[SmokingPrefix + category := if status == PyStr(category) then 1.0 else 0.0];
      OneHotStep(status, categories, i);
      UpdateUnion(record, before, SmokingPrefix + category, Indicator(status, category));
    }
    assert categories[..|categories|] == categories;
  }

  /**
   * `pd.DataFrame([d]).reindex(columns=columns, fill_value=0)` as its single
   * row: the value under each column, 0 where the dictionary has none; keys
   * that are not columns are dropped.
   */
  function Reindex(d: map<string, real>, columns: seq<string>): (row: seq<real>)
    ensures |row| == |columns|
  {
    seq(|columns|, i requires 0 <= i < |columns| => if columns[i] in d then d[columns[i]] else 0.0)
  }

  /** Each cell of the row is the dictionary's value under that column, or the fill value. */
  lemma ReindexCells(d: map<string, real>, columns: seq<string>, i: nat)
    requires i < |columns|
    ensures columns[i] in d ==> Reindex(d, columns)[i] == d[columns[i]]
    ensures columns[i] !in d ==> Reindex(d, columns)[i] == 0.0
  {
  }

  /** A cell whose column only the record has holds the record's value. */
  lemma RecordCell(record: map<string, real>, entries: map<string, real>, columns: seq<string>, i: nat)
    requires i < |columns| && columns[i] in record && columns[i] !in entries
    ensures Reindex(record + entries, columns)[i] == record[columns[i]]
  {
    ReindexCells(record + entries, columns, i);
  }

  /** A cell whose column the one-hot entries have holds their value. */
  lemma EntryCell(record: map<string, real>, entries: map<string, real>, columns: seq<string>, i: nat)
    requires i < |columns| && columns[i] in entries
    ensures Reindex(record + entries, columns)[i] == entries[columns[i]]
  {
    ReindexCells(record + entries, columns, i);
  }

  /** The vector the frozen model is given, or the exception raised on the way. */
  function DiabetesFeatures(data: map<string, Value>, columns: seq<string>, categories: seq<string>)
    : (r: Result<seq<real>, PyException>)
    ensures r.Ok? <==> NumericRecord(data).Ok? && "smoking_history" in data
    ensures r.Ok? ==> |r.value| == |columns|
    ensures r.Fail? ==> r.error == if NumericRecord(data).Fail? then NumericRecord(data).error else KeyError("smoking_history")
  {
    var record :- NumericRecord(data);
    var status :- Lookup(data, "smoking_history");
    Ok(Reindex(record + OneHot(status, categories), columns))
  }

  /** The message of the re-raised exception. */
  function DiabetesErrorMessage(e: PyException): string {
    "Error predicting diabetes risk: " + e.Text()
  }

  /**
   * `predict_diabetes_risk(data)` against the model fitted at import, whose
   * columns are the training columns; `Fail` carries the message of the
   * re-raised exception. The one-hot loop runs over the categories as
   * intended; the list the program computes agrees with them whenever no
   * training value contains "smoking_" (`SmokingCategoriesAsWrittenOfTraining`).
   */
  method PredictDiabetesRisk(data: map<string, Value>, model: FrozenModel) returns (r: Result<real, string>)
    ensures var features := DiabetesFeatures(data, model.columns, SmokingCategories(model.columns));
            && (features.Fail? ==> r == Fail(DiabetesErrorMessage(features.error)))
            && (features.Ok? ==>
                  var p := PositiveClassProbability(model, Some(model.columns), features.value);
                  (p.Ok? ==> r == Ok(p.value)) && (p.Fail? ==> r == Fail(DiabetesErrorMessage(p.error))))
  {
    var categories := SmokingCategories(model.columns);
    var record := NumericRecord(data);
    if record.Fail? {
      return Fail(DiabetesErrorMessage(record.error));
    }
    var status := Lookup(data, "smoking_history");
    if status.Fail? {
      return Fail(DiabetesErrorMessage(status.error));
    }
    var features := EncodeSmoking(record.value, status.value, categories);

    // lay the dictionary out in the training column order, then score it
    var row := Reindex(features, model.columns);
    var risk := PositiveClassProbability(model, Some(model.columns), row);
    if risk.Fail? {
      return Fail(DiabetesErrorMessage(risk.error));
    }
    return Ok(risk.value);
  }

  // ---------------------------------------------------------------------------
  // The vector the model sees
  // ---------------------------------------------------------------------------

  /**
   * Against training columns built from `values`, with the categories being
   * those values, the row holds the numeric fields first, then 1 in the
   * column of the patient's smoking history and 0 in every other dummy column.
   */
  lemma RowLayout(data: map<string, Value>, values: seq<string>)
    requires DiabetesFeatures(data, TrainingColumns(values), values).Ok?
    ensures var row := DiabetesFeatures(data, TrainingColumns(values), values).value;
            && |row| == |NumericColumns| + |values|
            && (forall i :: 0 <= i < |NumericColumns| ==> row[i] == NumericRecord(data).value[NumericColumns[i]])
            && (forall j :: 0 <= j < |values| ==>
                  row[|NumericColumns| + j] == Indicator(data["smoking_history"], values[j]))
  {
    var record := NumericRecord(data).value;
    var status := data["smoking_history"];
    var cols := TrainingColumns(values);
    assert DiabetesFeatures(data, cols, values).value == Reindex(record + OneHot(status, values), cols);
    RowNumericPart(record, status, values);
    RowDummyPart(record, status, values);
  }

  /** The numeric columns come first and hold the record's values. */
  lemma RowNumericPart(record: map<string, real>, status: Value, values: seq<string>)
    requires forall k :: k in record <==> k in NumericColumns
    ensures var row := Reindex(record + OneHot(status, values), TrainingColumns(values));
            forall i :: 0 <= i < |NumericColumns| ==> row[i] == record[NumericColumns[i]]
  {
    var cols := TrainingColumns(values);
    var entries := OneHot(status, values);
    NumericColumnsUnprefixed();
    forall i | 0 <= i < |NumericColumns| ensures Reindex(record + entries, cols)[i] == record[NumericColumns[i]] {
      assert cols[i] == NumericColumns[i];
      RecordCell(record, entries, cols, i);
    }
  }

  /** After them, each dummy column holds the indicator of its training value. */
  lemma RowDummyPart(record: map<string, real>, status: Value, values: seq<string>)
    ensures var row := Reindex(record + OneHot(status, values), TrainingColumns(values));
            forall j :: 0 <= j < |values| ==> row[|NumericColumns| + j] == Indicator(status, values[j])
  {
    var cols := TrainingColumns(values);
    var entries := OneHot(status, values);
    forall j | 0 <= j < |values| ensures Reindex(record + entries, cols)[|NumericColumns| + j] == Indicator(status, values[j]) {
      OneHotEntries(status, values, values[j]);
      assert cols[|NumericColumns| + j] == SmokingPrefix + values[j];
      EntryCell(record, entries, cols, |NumericColumns| + j);
    }
  }

  /**
   * The pipeline's row against training columns built from `values`: the
   * numeric fields first, then the one-hot encoding of the smoking history
   * aligned with the dummy columns, for any training values.
   */
  lemma DiabetesRowLayout(data: map<string, Value>, values: seq<string>)
    requires DiabetesFeatures(data, TrainingColumns(values), SmokingCategories(TrainingColumns(values))).Ok?
    ensures var row := DiabetesFeatures(data, TrainingColumns(values),
                                        SmokingCategories(TrainingColumns(values))).value;
            && |row| == |NumericColumns| + |values|
            && (forall i :: 0 <= i < |NumericColumns| ==> row[i] == NumericRecord(data).value[NumericColumns[i]])
            && (forall j :: 0 <= j < |values| ==>
                  row[|NumericColumns| + j] == Indicator(data["smoking_history"], values[j]))
  {
    SmokingCategoriesOfTraining(values);
    RowLayout(data, values);
  }

  /**
   * The categories as written give the same layout only when no training
   * value contains "smoking_".
   */
  lemma DiabetesRowLayoutAsWritten(data: map<string, Value>, values: seq<string>)
    requires forall j :: 0 <= j < |values| ==> !Contains(values[j], SmokingPrefix)
    requires DiabetesFeatures(data, TrainingColumns(values),
                              SmokingCategoriesAsWritten(TrainingColumns(values))).Ok?
    ensures var row := DiabetesFeatures(data, TrainingColumns(values),
                                        SmokingCategoriesAsWritten(TrainingColumns(values))).value;
            && |row| == |NumericColumns| + |values|
            && (forall i :: 0 <= i < |NumericColumns| ==> row[i] == NumericRecord(data).value[NumericColumns[i]])
            && (forall j :: 0 <= j < |values| ==>
                  row[|NumericColumns| + j] == Indicator(data["smoking_history"], values[j]))
  {
    SmokingCategoriesAsWrittenOfTraining(values);
    RowLayout(data, values);
  }

  /**
   * The one-hot part is exclusive: over distinct training values at most one
   * dummy column holds 1, and none does when the smoking history is not one
   * of the values (a number, say, or an unseen text).
   */
  lemma SmokingColumnsExclusive(data: map<string, Value>, values: seq<string>)
    requires forall j1, j2 :: 0 <= j1 < j2 < |values| ==> values[j1] != values[j2]
    requires DiabetesFeatures(data, TrainingColumns(values), SmokingCategories(TrainingColumns(values))).Ok?
    ensures var row := DiabetesFeatures(data, TrainingColumns(values),
                                        SmokingCategories(TrainingColumns(values))).value;
            var dummies := row[|NumericColumns|..];
            && |dummies| == |values|
            && (forall j :: 0 <= j < |dummies| ==> dummies[j] == 0.0 || dummies[j] == 1.0)
            && (forall j1, j2 :: 0 <= j1 < j2 < |dummies| ==> dummies[j1] == 0.0 || dummies[j2] == 0.0)
            && ((forall j :: 0 <= j < |values| ==> data["smoking_history"] != PyStr(values[j])) ==>
                  forall j :: 0 <= j < |dummies| ==> dummies[j] == 0.0)
  {
    DiabetesRowLayout(data, values);
    var row := DiabetesFeatures(data, TrainingColumns(values), SmokingCategories(TrainingColumns(values))).value;
    var dummies := row[|NumericColumns|..];
    forall j | 0 <= j < |dummies|
      ensures dummies[j] == Indicator(data["smoking_history"], values[j])
    {
      assert dummies[j] == row[|NumericColumns| + j];
    }
  }

  /**
   * As written, a patient whose smoking history is the training value
   * "smoking_x" gets 0 in that value's column; with the intended categories the
   * column holds 1.
   */
  lemma PrefixedValueNeverEncoded(data: map<string, Value>)
    requires NumericRecord(data).Ok?
    requires "smoking_history" in data && data["smoking_history"] == PyStr("smoking_x")
    ensures var cols := TrainingColumns(["smoking_x"]);
            && DiabetesFeatures(data, cols, SmokingCategoriesAsWritten(cols)).value[|NumericColumns|] == 0.0
            && DiabetesFeatures(data, cols, SmokingCategories(cols)).value[|NumericColumns|] == 1.0
  {
    var cols := TrainingColumns(["smoking_x"]);
    PrefixRemovedTwice();
    var status := PyStr("smoking_x");
    var d := NumericRecord(data).value + OneHot(status, ["x"]);
    var col := cols[|NumericColumns|];
    assert col == "smoking_smoking_x";
    assert col !in NumericRecord(data).value by {
      NumericColumnsUnprefixed();
      assert StartsWith(col, SmokingPrefix);
    }
    assert col !in OneHot(status, ["x"]) by {
      OneHotEntries(status, ["x"], "x");
      assert forall c :: SmokingPrefix + c == col ==> c == "smoking_x";
      OneHotEntries(status, ["x"], "smoking_x");
    }
    DiabetesRowLayout(data, ["smoking_x"]);
  }

  /** A missing field raises KeyError with that field's name; the numeric fields are read first. */
  lemma MissingFieldRaisesKeyError(data: map<string, Value>, columns: seq<string>, categories: seq<string>)
    ensures "age" !in data ==> DiabetesFeatures(data, columns, categories) == Fail(KeyError("age"))
    ensures "age" !in data ==>
              DiabetesErrorMessage(DiabetesFeatures(data, columns, categories).error)
              == "Error predicting diabetes risk: 'age'"
    ensures NumericRecord(data).Ok? && "smoking_history" !in data ==>
              DiabetesFeatures(data, columns, categories) == Fail(KeyError("smoking_history"))
  {
  }

  /**
   * Against a model fitted on the columns the row is laid out in, the scaler
   * accepts the row; only an output of the wrong shape can still fail.
   */
  lemma DiabetesRowFitsModel(data: map<string, Value>, model: FrozenModel, categories: seq<string>)
    requires DiabetesFeatures(data, model.columns, categories).Ok?
    ensures PositiveClassProbability(model, Some(model.columns),
                                     DiabetesFeatures(data, model.columns, categories).value).Fail? ==>
              PositiveClassProbability(model, Some(model.columns),
                                       DiabetesFeatures(data, model.columns, categories).value).error.IndexError?
  {
  }
}
