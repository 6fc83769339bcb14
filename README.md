# HealthPredictor core in Dafny

This project models the core of HealthPredictor. HealthPredictor is a Flask health dashboard whose core computes health measurements and two risk scores:

- **utils.py**: the input validators for blood pressure, heart rate, temperature and weight; BMI and its category; the blood-pressure classification; the formatting of a risk score; and the HTML sanitiser.
- **MedicinaaiV2/risk_model.py**: `predict_heart_disease_risk`. It extracts and range-checks five features from a request dictionary one after another, then asks a frozen scaler and logistic regression for the probability of heart disease. On any error it prints a line and returns 0.0.
- **diabetes_model.py**: the smoking categories recovered from the one-hot training columns, and `predict_diabetes_risk`. It builds a feature dictionary, one-hot encodes the smoking history in a loop, re-indexes the row to the training columns and asks a frozen scaler and random forest for the probability. It re-raises any error with a prefix.

**How Python values are modelled**
- Python values are the datatype `PyValues.Value`, and exceptions are `PyValues.PyException`.
- `float()` and `int()` of text are modelled by a decimal scanner (`PyText.ParseFloat`, `PyText.ParseInt`).
- `round` is round-half-to-even.
- `dict.get` and `d[k]` become `Get` and `Lookup`.
- Every operation that can raise returns a `Result`.

**How the models are modelled**
- The fitted scaler and classifier are the value `FrozenModels.FrozenModel`. It holds the training columns and two arbitrary functions, one for `transform` and one for `predict_proba`. The fitted numerics are not modelled.
- The heart-risk extraction is written as a method that appends features step by step, the way the source does. It is proved equal to the function `HeartRisk.HeartFeatures`.
- The diabetes one-hot loop is a method that updates a map. It is proved equal to `record + OneHot(status, categories)`.

**The two defects under Findings**
- Each defect is modelled twice: as written, with a lemma that exhibits the defect, and as evidently intended, with its intended property proved.
- The blood-pressure formatter and the diabetes pipeline use the intended definitions.
- Agreement lemmas give inputs on which the intended and the as-written behaviour coincide (for the blood-pressure formatter, exactly those inputs). For all other inputs, the as-written members state what the program actually does.

## Model

| member | source | states |
|---|---|---|
| PyText.StripLeft | utils.py:18 | the result is a suffix of the input, every removed character is whitespace, and the first kept character is not |
| PyText.StripRight | utils.py:18 | the result is a prefix of the input, every removed character is whitespace, and the last kept character is not |
| PyText.FirstIndex | MedicinaaiV2/risk_model.py:47 | the index of the first separator, or the length of the text exactly when there is none |
| PyText.Split | utils.py:18 | `str.split(sep)` yields at least one part, no part contains the separator, and the first part is the text before the first separator |
| PyText.JoinSplit | utils.py:18 | joining the parts of a split with the separator gives back the text |
| PyText.SplitJoin | utils.py:18 | splitting a join of separator-free parts gives back the parts |
| PyText.ReplaceAll | diabetes_model.py:25 | `str.replace` with a non-empty pattern: replacing the pattern by itself gives back the text |
| PyText.ReplaceAllAbsent | diabetes_model.py:25 | `str.replace` leaves a text unchanged when the pattern does not occur in it |
| PyText.ReplaceAllLeading | diabetes_model.py:25 | a leading occurrence of the pattern is replaced, and the rest is processed independently |
| PyText.ReplaceCharStep | utils.py:164-168 | replacing one character handles the first character, then the rest of the text |
| PyText.ReplaceCharConcat | utils.py:164-168 | replacing a single character distributes over concatenation |
| PyText.NatText | utils.py:121 | the decimal text of a natural number is non-empty, all digits, denotes that number, and starts with '0' only for 0 (no leading zeros) |
| PyText.ParseInt | utils.py:33 | `int()` of text succeeds exactly when the stripped text is an optional sign followed by one or more decimal digits; the magnitude is the value of those digits, and the result is negative only after a '-', and a leading '-' never gives a positive result |
| PyText.ParseIntText | utils.py:18 | `int()` applied to the decimal text of an integer gives back that integer |
| PyText.ParseIntRejects | utils.py:33 | `int()` of a text without surrounding space fails when any character after the first is not a digit |
| PyText.ParseFloat | MedicinaaiV2/risk_model.py:39 | `float()` of text succeeds only when the text contains at least one decimal digit; its values are stated by the ParseFloatDecimal and ParseFloat…Exponent lemmas below |
| PyText.DigitsValueConcat | MedicinaaiV2/risk_model.py:39 | the value of two digit runs written one after the other is the first times 10^(length of the second) plus the second |
| PyText.ScaleDown | MedicinaaiV2/risk_model.py:39 | scaling by 10^-n divides by 10^n |
| PyText.ScaleUp | MedicinaaiV2/risk_model.py:39 | scaling by 10^n multiplies by 10^n |
| PyText.ScanFractionDigits | MedicinaaiV2/risk_model.py:39 | digits after the '.' extend the mantissa by their value and are counted as fraction digits |
| PyText.ScanExpDigits | MedicinaaiV2/risk_model.py:39 | digits after the exponent mark (and its sign) are read as one exponent of their value |
| PyText.ScanDecimal | MedicinaaiV2/risk_model.py:39 | reading `a.b` for digit runs a and b leaves the digits of both as the mantissa and |b| fraction digits |
| PyText.FractionValue | MedicinaaiV2/risk_model.py:39 | a mantissa m with k fraction digits and no exponent denotes m / 10^k |
| PyText.ParseFloatDecimal | MedicinaaiV2/risk_model.py:39 | `float(a + "." + b)` for digit runs a and b, not both empty, is the value of the digits of a and b divided by 10^|b| |
| PyText.ScanExponent | MedicinaaiV2/risk_model.py:39 | reading digits, "e" or "e-", and digits leaves the first run as the mantissa and the second as the exponent, with its sign |
| PyText.ExponentValue | MedicinaaiV2/risk_model.py:39 | a whole mantissa m with exponent n denotes m · 10^n, or m / 10^n for a negative exponent |
| PyText.ParseFloatExponent | MedicinaaiV2/risk_model.py:39 | `float(a + "e" + e)` for non-empty digit runs is value(a) · 10^value(e) |
| PyText.ParseFloatNegativeExponent | MedicinaaiV2/risk_model.py:39 | `float(a + "e-" + e)` for non-empty digit runs is value(a) / 10^value(e) |
| PyText.ParseFloatDecimalExample | MedicinaaiV2/risk_model.py:39 | `float("36.6")` is 36.6 |
| PyText.ParseFloatFractionExample | MedicinaaiV2/risk_model.py:39 | `float(".5")` is 0.5 |
| PyText.ParseFloatExponentExample | MedicinaaiV2/risk_model.py:39 | `float("1e2")` is 100.0 |
| PyText.ParseFloatNegativeExponentExample | MedicinaaiV2/risk_model.py:39 | `float("5e-3")` is 0.005 |
| PyText.ScanConcat | MedicinaaiV2/risk_model.py:39 | scanning a concatenation equals scanning the first part and then continuing with the second |
| PyText.ScanDigits | MedicinaaiV2/risk_model.py:39 | scanning a run of digits at the start accumulates exactly their decimal value |
| PyText.ScanFloatReads | MedicinaaiV2/risk_model.py:39 | the single-pass float reader equals scanning the whole text and then reading the value of the final state |
| PyText.ParseFloatDigits | MedicinaaiV2/risk_model.py:39 | `float()` of an optionally negative run of digits is its value |
| PyText.ParseFloatText | MedicinaaiV2/risk_model.py:39 | `float()` applied to the decimal text of an integer gives that integer as a real |
| PyValues.Number | utils.py:85 | exactly bool, int and float take part in arithmetic and comparison; True is 1, False is 0, and an int or float is its own value |
| PyValues.Trunc | utils.py:33 | `int()` of a float truncates toward zero |
| PyValues.ToFloat | utils.py:46 | `float()` succeeds on text exactly when it parses, and on other values exactly when they are numbers; the value is the parsed or numeric one |
| PyValues.ToInt | utils.py:33 | `int()` fails exactly on None and on text that is not an integer literal; it parses text, truncates floats, gives 1 and 0 for True and False, and an int unchanged |
| PyValues.Get | MedicinaaiV2/risk_model.py:39 | `dict.get` returns the stored value, or the default when the key is missing |
| PyValues.Lookup | diabetes_model.py:47 | `d[k]` returns the stored value, or raises `KeyError(k)` exactly when the key is missing |
| PyValues.RoundHalfEven | utils.py:86 | the result lies within 0.5 of the input, and a tie goes to the even neighbour |
| PyValues.Round1 | utils.py:150 | `round(x, 1)` lies within 0.05 of x and has at most one decimal (ten times it is an integer) |
| PyValues.Round1Exact | utils.py:150 | rounding to one decimal leaves a value that already has one decimal unchanged |
| PyValues.ConvertIntText | utils.py:33 | `int()` and `float()` of an integer's decimal text give that integer |
| Utils.ValidateBloodPressure | utils.py:9-25 | it raises TypeError exactly on truthy non-text inputs; an accepted pair is in 70..200 and 40..130 and is the two integers of a text with exactly one slash |
| Utils.BloodPressureAcceptsWellFormed | utils.py:14-22 | a text with exactly one slash whose halves parse to integers within the ranges is accepted as that pair |
| Utils.BloodPressureRoundTrip | utils.py:14-22 | validating "s/d", written from in-range integers s and d, gives back (s, d) |
| Utils.SplitReading | utils.py:18 | splitting "s/d" at the slash gives the two decimal texts |
| Utils.BloodPressureRejectsMalformed | utils.py:15-18 | empty text, text without a slash, and text with more than one slash are rejected with None |
| Utils.BloodPressureRejectsOutOfRange | utils.py:21-23 | a well-formed reading outside either range is rejected with None |
| Utils.ValidateHeartRate | utils.py:27-38 | the result is present exactly when `int(hr)` succeeds and lies in 30..220, and it is that integer |
| Utils.HeartRateAcceptsExactlyRange | utils.py:32-36 | an integer is accepted exactly in 30..220, and its decimal text is treated the same |
| Utils.HeartRateTruncatesFloats | utils.py:32-38 | a float is truncated: 220.9 is accepted as 220 and 29.9 is rejected; None is rejected |
| Utils.HeartRateRefusesDecimalText | utils.py:32-38 | the text "72.5" is not an integer literal and is rejected |
| Utils.ValidateTemperature | utils.py:40-51 | the result is present exactly when `float(temp)` succeeds and lies in 35.0..42.0, and it is that float |
| Utils.ValidateWeight | utils.py:53-64 | the result is present exactly when `float(weight)` succeeds and lies in 20.0..300.0, and it is that float |
| Utils.TemperatureAndWeightAcceptExactlyRange | utils.py:45-64 | a float is accepted exactly within its range; None is rejected |
| Utils.TemperatureAndWeightAcceptText | utils.py:46 | an integer's decimal text validates like the integer |
| Utils.CalculateBmi | utils.py:80-88 | the result is present exactly when both arguments are numbers and the height is non-zero; it lies within 0.05 of weight / height² and has at most one decimal |
| Utils.BmiExample | utils.py:80-103 | 70 kg at 1.75 m gives 22.9, which is "Normal"; a zero height gives None |
| Utils.GetBmiCategory | utils.py:90-103 | None is "Unknown"; each category holds exactly on its half-open band |
| Utils.BmiCategoryMonotone | utils.py:90-103 | a larger BMI never falls into a lower category |
| Utils.ClassifyReading | utils.py:109-119 | two numbers always classify to a named category other than "Unknown"; a non-number systolic raises |
| Utils.NumericReadingBands | utils.py:110-117 | the exact region of (systolic, diastolic) for each category, as the elif chain orders them |
| Utils.ShortCircuitSkipsDiastolic | utils.py:110-119 | a bad diastolic is never compared when the systolic alone decides the branch (135/"x" is Stage 1) and raises otherwise |
| Utils.StageTwoReportedAsStageOne | utils.py:114-117 | 145/85 and 135/95 are reported as Stage 1 |
| Utils.IntendedCategory | utils.py:110-119 | the intended classification: Stage 2 exactly when s ≥ 140 or d ≥ 90, and each other category on its exact region |
| Utils.ClassifyReadingMatchesIntended | utils.py:110-119 | outside the two misclassified regions, the chain as written agrees with the intended classification |
| Utils.NamesDistinct | utils.py:111-119 | the five category names are pairwise different |
| Utils.ReadingTextNamesCategory | utils.py:121 | two texts of the same reading are equal exactly when they name the same category |
| Utils.ClassifyIntAsFloat | utils.py:110-119 | an integer reading classifies the same way as the same numbers given as floats |
| Utils.FormatBloodPressureReadingAsWritten | utils.py:105-123 | the text is "s/d mmHg (category)" with the category of the chain as written, which for integers is never "Unknown" |
| Utils.FormatBloodPressureReading | utils.py:105-121 | the text names Stage 2 exactly when s ≥ 140 or d ≥ 90, and it equals the text the program returns exactly outside the two misclassified regions (130 ≤ s < 140 with d ≥ 90, and s ≥ 140 with 80 ≤ d < 90) |
| Utils.BandOf | utils.py:135-147 | each risk level holds exactly on its band of the percentage |
| Utils.FormatRiskScore | utils.py:131-153 | the percentage is within 0.05 of score × 100 and has at most one decimal; level and advice come from the band of the unrounded percentage |
| Utils.RiskLevelAdvicePaired | utils.py:136-147 | the reported level is one of the four names, and the names identify the levels |
| Utils.RiskLevelMonotone | utils.py:135-147 | a higher score never gets a lower risk level |
| Utils.RiskScoreTable | utils.py:131-153 | the reports at 0, 0.19, 0.20, 0.39, 0.40, 0.59, 0.60 and 1.0 |
| Utils.BandUsesUnroundedPercentage | utils.py:135-150 | 0.19996 is reported as 20.0 percent but "Low" |
| Utils.StripTags | utils.py:162 | the result has no '<' followed later by a '>', is no longer than the input, has a '>' only if the input had one, and is the input itself when the input has no '<' or no '>' |
| Utils.StripTagsKeepsPlain | utils.py:162 | text before the first '<' is kept unchanged |
| Utils.StripTagsDropsTag | utils.py:162 | a leading `<...>` without an inner '>' is removed, up to its first '>' |
| Utils.StripTagsRemovesTag | utils.py:162 | in a + "<" + m + ">" + b, with no '<' in a and no '>' in m, the tag is removed and a is kept |
| Utils.EscapeAll | utils.py:164-168 | the escaped text contains none of the four markup characters '<', '>', '"' and "'" ('&' remains, as the start of each entity) |
| Utils.ReplaceEntities | utils.py:164-168 | the chain of five replaces leaves a text with none of the five special characters unchanged |
| Utils.NoEntityCharUnchanged | utils.py:164-168 | each of the five replacements leaves a text without its character unchanged |
| Utils.SanitizeInput | utils.py:155-169 | every falsy value (None, "", 0, False) gives ""; TypeError exactly for a truthy value that is not text; for text, the result is tag stripping followed by entity escaping, and is free of markup characters |
| Utils.SanitizeNonText | utils.py:159-162 | None and 0 give "", and the integer 5 raises TypeError in `re.sub` |
| Utils.ReplaceEntitiesConcat | utils.py:164-168 | the replace chain distributes over concatenation |
| Utils.ReplaceEntitiesChar | utils.py:164-168 | on one character the replace chain gives that character's entity, because '&' is replaced first |
| Utils.ReplaceEntitiesIsEscape | utils.py:164-168 | the chain of five replaces equals escaping each character on its own; no entity is escaped twice |
| Utils.UnescapeEscape | utils.py:164-168 | unescaping the escaped text gives back the text |
| Utils.SanitizeRoundTrip | utils.py:155-169 | unescaping the sanitised text gives exactly the tag-stripped input, which has no tags left |
| FrozenModels.PositiveClassProbability | MedicinaaiV2/risk_model.py:73-76 | it succeeds exactly when the row width, the column names and the output shape fit, and the value is `predict_proba(transform([row]))[0][1]` |
| HeartRisk.CheckSystolic | MedicinaaiV2/risk_model.py:45-51 | the check passes exactly when the value is text whose part before the first '/' parses as a float in 80..200, and the value is that float; a failure on text is always the blood-pressure format error, and a non-text value raises AttributeError |
| HeartRisk.CheckRange | MedicinaaiV2/risk_model.py:39-41 | the check passes exactly when the conversion succeeded and lies in the feature's range; a failure carries the conversion error or the feature's range message |
| HeartRisk.ReadInRange | MedicinaaiV2/risk_model.py:39-41 | reading one numeric feature equals its range check, so an accepted value lies in range |
| HeartRisk.ReadSystolic | MedicinaaiV2/risk_model.py:45-51 | reading the systolic equals its check, so an accepted value lies in 80..200 |
| HeartRisk.ExtractHeartFeatures | MedicinaaiV2/risk_model.py:36-70 | the features appended step by step equal `HeartFeatures(data)`, including which error stops extraction first |
| HeartRisk.PredictHeartDiseaseRisk | MedicinaaiV2/risk_model.py:22-82 | any failure yields 0.0 and one printed "Prediction error: …" line; otherwise the score is the model's positive-class probability and nothing is printed |
| HeartRisk.Collect | MedicinaaiV2/risk_model.py:36-70 | a successful collection appends one value per check after the values already collected; a failure carries the error of one of the checks |
| HeartRisk.CollectPasses | MedicinaaiV2/risk_model.py:36-70 | collection succeeds exactly when every check does, and then it appends the checked values in order |
| HeartRisk.CollectFirstFailure | MedicinaaiV2/risk_model.py:36-70 | a failed collection reports the error of one of the checks |
| HeartRisk.CollectFive | MedicinaaiV2/risk_model.py:36-70 | collecting five checks is the chain of five early returns |
| HeartRisk.HeartFeaturesCollect | MedicinaaiV2/risk_model.py:36-70 | the extraction chain equals collecting the five checks |
| HeartRisk.HeartChecks | MedicinaaiV2/risk_model.py:38-70 | there are five checks, one per feature in the source's order, and each passing check lies within its feature's range |
| HeartRisk.EachInRange | MedicinaaiV2/risk_model.py:40-68 | five per-feature range facts give the range of every position |
| HeartRisk.CollectFeatures | MedicinaaiV2/risk_model.py:9 | collecting five checks gives a vector aligned with the training columns |
| HeartRisk.HeartFeatures | MedicinaaiV2/risk_model.py:36-70 | an extracted vector has one entry per training column, each within the range of its feature |
| HeartRisk.HeartFeaturesPass | MedicinaaiV2/risk_model.py:9-70 | extraction succeeds exactly when all five checks pass; the vector has one entry per training column, in order, each the checked value and within its range |
| HeartRisk.HeartFeaturesFirstFailure | MedicinaaiV2/risk_model.py:36-70 | a failed extraction carries the error of one of the five checks |
| HeartRisk.SystolicIgnoresDiastolic | MedicinaaiV2/risk_model.py:47 | only the text before the first slash matters; the diastolic part is never looked at |
| HeartRisk.MissingNumberReadsZero | MedicinaaiV2/risk_model.py:39-70 | a missing numeric field reads as 0, which only st_depression accepts |
| HeartRisk.MissingBloodPressureRefused | MedicinaaiV2/risk_model.py:45-51 | a missing blood pressure is the format error |
| HeartRisk.MissingAgeRefused | MedicinaaiV2/risk_model.py:39-41 | a missing age stops extraction with the age range error |
| HeartRisk.SystolicOfReading | MedicinaaiV2/risk_model.py:45-51 | "s/d" with 80 ≤ s ≤ 200 gives s, whatever d is |
| HeartRisk.HeartAcceptsWellFormed | MedicinaaiV2/risk_model.py:36-70 | a request with in-range integer fields and a reading "s/d" yields exactly the vector [age, s, chol, rate, oldpeak] |
| HeartRisk.HeartVectorFitsModel | MedicinaaiV2/risk_model.py:73-76 | against a model fitted on the five columns, only an output of the wrong shape can still fail |
| DiabetesRisk.DummyColumns | diabetes_model.py:12 | one dummy column per training value, in order, each named "smoking_" + value |
| DiabetesRisk.SmokingCategoriesAsWritten | diabetes_model.py:25 | at most one category per column |
| DiabetesRisk.SmokingCategoriesAsWrittenMeaning | diabetes_model.py:25 | every prefixed column, with every occurrence of "smoking_" removed, is a category, and every category comes from a prefixed column that way |
| DiabetesRisk.SmokingCategories | diabetes_model.py:25 | at most one category per column (the intended prefix removal) |
| DiabetesRisk.SmokingCategoriesMeaning | diabetes_model.py:25 | every prefixed column without its prefix is a category, and "smoking_" + c is a column for every category c |
| DiabetesRisk.NumericColumnsUnprefixed | diabetes_model.py:9 | no numeric column starts with "smoking_" |
| DiabetesRisk.CategoriesConcat | diabetes_model.py:25 | category recovery distributes over concatenated column lists |
| DiabetesRisk.CategoriesOfDummies | diabetes_model.py:12-25 | stripping the prefix from the dummy columns gives back the training values |
| DiabetesRisk.SmokingCategoriesOfTraining | diabetes_model.py:9-25 | the intended categories of the training columns are exactly the training values, and each value's column exists |
| DiabetesRisk.ReplacePrefixOnce | diabetes_model.py:25 | `replace('smoking_', '')` strips just the leading prefix when the rest does not contain it |
| DiabetesRisk.CategoriesAgree | diabetes_model.py:25 | as-written and intended categories agree when no prefixed column repeats the prefix |
| DiabetesRisk.SmokingCategoriesAsWrittenOfTraining | diabetes_model.py:9-25 | when no training value contains "smoking_", the as-written categories are exactly the training values |
| DiabetesRisk.PrefixRemovedTwice | diabetes_model.py:25 | for the training value "smoking_x", the as-written category is "x", whose column does not exist; the intended category is "smoking_x" |
| DiabetesRisk.FloatField | diabetes_model.py:47-50 | `float(data[k])` raises KeyError(k) on a missing key, otherwise it converts the stored value |
| DiabetesRisk.IntField | diabetes_model.py:51-52 | `int(data[k])` raises KeyError(k) on a missing key, otherwise it converts the stored value |
| DiabetesRisk.RecordOfPasses | diabetes_model.py:46-53 | the dictionary literal exists exactly when all six values do, and then its keys are exactly the six numeric columns |
| DiabetesRisk.RecordOfValues | diabetes_model.py:46-53 | each numeric column holds the value at its position in the literal |
| DiabetesRisk.RecordOfFirstFailure | diabetes_model.py:46-53 | a failed literal raises the error of the first value that fails, and every value before it succeeded |
| DiabetesRisk.NumericRecord | diabetes_model.py:46-53 | the feature dictionary's keys are exactly the six numeric training columns (including the renamed HbA1c_level) |
| DiabetesRisk.ColumnReads | diabetes_model.py:46-53 | the feature dictionary is the literal over the six reads, in order |
| DiabetesRisk.NumericRecordPasses | diabetes_model.py:46-53 | the feature dictionary exists exactly when all six reads succeed |
| DiabetesRisk.NumericRecordValues | diabetes_model.py:46-53 | each numeric column holds the value read from its request key ('HbA1c_level' from 'hba1c_level'), with `int()` for the two flags |
| DiabetesRisk.NumericRecordFirstFailure | diabetes_model.py:46-53 | a failure is the error of the first read that fails; every read before it succeeded |
| DiabetesRisk.OneHot | diabetes_model.py:57-58 | every key is "smoking_" + a category, holding the indicator of that category |
| DiabetesRisk.OneHotEntries | diabetes_model.py:57-58 | the encoding has a key "smoking_c" exactly for each category c, holding 1 when the status equals c and 0 otherwise, and no other keys |
| DiabetesRisk.OneHotStep | diabetes_model.py:57-58 | one loop iteration adds exactly the next category's entry |
| DiabetesRisk.EncodeSmoking | diabetes_model.py:56-58 | after the loop the dictionary is the numeric record extended by the one-hot entries of all categories |
| DiabetesRisk.Reindex | diabetes_model.py:61-62 | the row has one cell per training column |
| DiabetesRisk.ReindexCells | diabetes_model.py:61-62 | each cell holds the dictionary's value for its column, or the fill value 0 |
| DiabetesRisk.DiabetesFeatures | diabetes_model.py:46-62 | the row exists exactly when the feature dictionary does and the request has a smoking history; it has one cell per column; a failure is the dictionary's error, or else KeyError('smoking_history') |
| DiabetesRisk.PredictDiabetesRisk | diabetes_model.py:27-70 | the result is the model's probability for the row encoded over the intended categories; any error in the fields, the scaler or the output comes back with the prefix "Error predicting diabetes risk: " |
| DiabetesRisk.RowLayout | diabetes_model.py:46-62 | with the training values as categories, the row is the six numeric fields in column order followed by one indicator per training value |
| DiabetesRisk.RowNumericPart | diabetes_model.py:46-62 | the first six cells hold the record's numeric values in column order |
| DiabetesRisk.RowDummyPart | diabetes_model.py:57-62 | the cell of each training value's dummy column holds its indicator |
| DiabetesRisk.DiabetesRowLayout | diabetes_model.py:25-62 | with the intended categories, the pipeline's row is the six numeric fields in column order followed by one indicator per training value, for any training values |
| DiabetesRisk.DiabetesRowLayoutAsWritten | diabetes_model.py:25-62 | the categories as written give that layout when no training value contains "smoking_" |
| DiabetesRisk.SmokingColumnsExclusive | diabetes_model.py:57-62 | over distinct training values the dummy cells are 0 or 1, at most one is 1, and all are 0 for an unknown status |
| DiabetesRisk.PrefixedValueNeverEncoded | diabetes_model.py:25-62 | for status "smoking_x", the as-written row holds 0 in that value's column where the intended row holds 1 |
| DiabetesRisk.MissingFieldRaisesKeyError | diabetes_model.py:46-70 | a missing age raises KeyError('age'), reported as "Error predicting diabetes risk: 'age'"; a missing smoking history raises KeyError after the numeric fields |
| DiabetesRisk.DiabetesRowFitsModel | diabetes_model.py:61-66 | a row re-indexed to the model's own columns always passes the scaler's checks; only an output of the wrong shape can fail |

## Left out

- Machine learning: loading the CSV files, the train/test split, and fitting the scaler, logistic regression and random forest. The fitted model is a parameter (`FrozenModel`) whose transform and probability are arbitrary functions. The training values of `smoking_history` are a parameter too.
- `print` in `predict_heart_disease_risk`: it is the `printed` out-parameter of `HeartRisk.PredictHeartDiseaseRisk`.
- `validate_email`, `format_date` and `log_health_update` in utils.py: regular expressions, clocks and logging, outside the core.
- app.py, ai_helper.py, healthutils.py, the MedDataViz 2 copies and the JavaScript files are not part of this model.
- Floating point: reals are exact. `float()` on "inf", "nan" or underscore-separated text is treated as a parse failure. So for an age of "nan" the model reports "could not convert string to float: 'nan'", where Python's float("nan") (like float("inf")) fails the range test at MedicinaaiV2/risk_model.py:40-41 and the message is "Age must be between 20 and 100". Rounding and comparisons near the binary representation of a decimal are exact here.
- The message of the TypeError that `re.sub` raises for a non-text argument of `sanitize_input` is the one recent Python versions print ("expected string or bytes-like object, got 'int'"); older versions leave out the type name.
- PyText.ParseInt: digits separated by single underscores are rejected, but Python's `int("1_20")` is 120, so `validate_heart_rate("1_20")` returns 120 and `validate_blood_pressure("1_20/80")` returns (120, 80) where the model gives None.
- PyValues.Repr: always single quotes. Python picks double quotes for text containing an apostrophe and escapes backslashes, so error messages quoting such text differ.
- Lists and dictionaries as request field values are not modelled: `Value` holds only the JSON scalars.
- Number parsing accepts ASCII digits and ASCII whitespace only. Python also accepts other Unicode digits and spaces.
- Error text from NumPy, pandas and scikit-learn is given in its usual wording but is not checked against those libraries.
- `str(e)` of an exception with no argument (the inner `raise ValueError` in risk_model.py) is replaced immediately by the format message, so only named messages are modelled.
- Utils.FormatBloodPressureReading and Utils.FormatBloodPressureReadingAsWritten: modelled for integer arguments only. Non-numeric arguments to `format_blood_pressure_reading` are covered by `Utils.ClassifyReading`, which returns None where Python raises TypeError (the "Invalid reading" branch).
- Utils.CalculateBmi: states the result to within 0.05 of weight / height², with one decimal, rather than the exact half-even rounding of a binary float.
- DiabetesRisk.SmokingCategoriesAsWritten and DiabetesRisk.SmokingCategories: their own contracts bound only the length; what they compute is stated by `SmokingCategoriesAsWrittenMeaning`, `SmokingCategoriesMeaning` and the lemmas that follow them.
- DiabetesRisk.NumericRecord: its own contract states the keys; that it exists exactly when all six reads succeed, the value in each column and the first failure are stated by `NumericRecordPasses`, `NumericRecordValues` and `NumericRecordFirstFailure`.
- HeartRisk.ExtractHeartFeatures: the reading of each feature is factored into the helper methods `ReadInRange` and `ReadSystolic`; behaviour and order are unchanged.
- Utils.FormatBloodPressureReading and DiabetesRisk.PredictDiabetesRisk: they use the intended definitions of the two findings. They differ from the program only on the inputs that the contract of `Utils.FormatBloodPressureReading` and the lemma `DiabetesRisk.SmokingCategoriesAsWrittenOfTraining` exclude.

## Findings

| source | as written | input that shows it | evidently intended | confidence | as-written member | corrected member |
|---|---|---|---|---|---|---|
| utils.py:114-117 | the Stage 1 test `130 <= systolic < 140 or 80 <= diastolic < 90` comes before the Stage 2 test, so a reading that is Stage 2 on one number and Stage 1 on the other is reported as Stage 1 | 145/85 (also 135/95) | Stage 2 whenever systolic ≥ 140 or diastolic ≥ 90 | not executed | Utils.StageTwoReportedAsStageOne | Utils.IntendedCategory |
| diabetes_model.py:25 | `col.replace('smoking_', '')` removes every occurrence of the prefix, not just the leading one, so a training value that itself contains "smoking_" yields a category whose column does not exist and is never set | training value and status "smoking_x": column "smoking_smoking_x" stays 0 | strip the leading prefix once | not executed | DiabetesRisk.PrefixedValueNeverEncoded | DiabetesRisk.SmokingCategoriesOfTraining |
