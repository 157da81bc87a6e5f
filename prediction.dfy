/** Prediction serving (`PredictionPipeline.predict`): one raw record of the
    19 fixed fields is wrapped as a one-row frame, `TotalCharges` is coerced
    to a number, the categorical fields are one-hot encoded and the numeric
    ones scaled, the columns are reconciled with the feature names the model
    was trained on, and the model's output becomes one of two labels.
    Loading the model file is left to the caller: the model comes in as a
    value. */
module Prediction {
  import opened Seqs
  import opened Frames
  import opened OneHot

  /** The record's fields, in the order the web form sends them. */
  const InputColumns: seq<string> := [
    "gender", "SeniorCitizen", "Partner", "Dependents", "tenure",
    "PhoneService", "MultipleLines", "InternetService", "OnlineSecurity",
    "OnlineBackup", "DeviceProtection", "TechSupport", "StreamingTV",
    "StreamingMovies", "Contract", "PaperlessBilling", "PaymentMethod",
    "MonthlyCharges", "TotalCharges"]

  /** The fields encoded one-hot: a fixed list, not read off the dtypes. */
  const CategoricalColumns: seq<string> := [
    "gender", "Partner", "Dependents", "PhoneService", "MultipleLines",
    "InternetService", "OnlineSecurity", "OnlineBackup", "DeviceProtection",
    "TechSupport", "StreamingTV", "StreamingMovies", "Contract",
    "PaperlessBilling", "PaymentMethod"]

  /** The fields scaled as numbers. */
  const NumericColumns: seq<string> := ["SeniorCitizen", "tenure", "MonthlyCharges", "TotalCharges"]

  /** The two hard-coded lists split the 19 input fields between them. */
  lemma ColumnListsSplitInput()
    ensures |InputColumns| == 19 && Distinct(InputColumns)
    ensures Distinct(CategoricalColumns) && Distinct(NumericColumns)
    ensures forall c :: c in CategoricalColumns ==> c !in NumericColumns
    ensures forall c :: c in InputColumns <==> c in CategoricalColumns || c in NumericColumns
    ensures |CategoricalColumns| + |NumericColumns| == |InputColumns|
    ensures InputColumns[18] == TotalCharges && TotalCharges in NumericColumns
  {
  }

  /** The trained classifier as serving sees it: the feature names it was fit
      on (`feature_names_in_`, absent when the library did not record them)
      and its `predict` on a one-row frame. */
  datatype Model = Model(featureNames: Option<seq<string>>, classify: Frame -> int)

  /** `pd.DataFrame(data, columns=columns)` refuses a record of another width. */
  datatype PredictError = WrongWidth(width: nat)

  /** pandas' dtype for a column built from Python values: numbers (and
      missing values) give a float column, anything else an object column. */
  function InferDType(cells: seq<Cell>): (d: DType)
    ensures d == Object || d == Float64
    ensures d == Object <==> exists i :: 0 <= i < |cells| && cells[i].Text?
  {
    if forall i :: 0 <= i < |cells| ==> !cells[i].Text? then Float64 else Object
  }

  /** The record wrapped as a one-row frame under the fixed column names. */
  function WrapRecord(record: seq<Cell>): (r: Result<Frame, PredictError>)
    ensures r.Ok? <==> |record| == |InputColumns|
    ensures r.Ok? ==> WellFormed(r.value) && r.value.names == InputColumns && r.value.rows == 1
    ensures r.Ok? ==> forall i :: 0 <= i < |InputColumns| ==> r.value.cols[InputColumns[i]].cells == [record[i]]
  {
    ColumnListsSplitInput();
    if |record| != |InputColumns| then Err(WrongWidth(|record|))
    else
      Ok(FromColumns(InputColumns,
                     seq(|record|, i requires 0 <= i < |record| => Column(InferDType([record[i]]), [record[i]])),
                     1))
  }

  /** The wrapped record with `TotalCharges` coerced: that field becomes a
      number and every other field is the record's own value. */
  function InputFrame(record: seq<Cell>, parse: Parser): (r: Result<Frame, PredictError>)
    ensures r.Ok? <==> |record| == |InputColumns|
    ensures r.Ok? ==> WellFormed(r.value) && r.value.names == InputColumns && r.value.rows == 1
    ensures r.Ok? ==> forall i :: 0 <= i < |InputColumns| && InputColumns[i] != TotalCharges ==>
      r.value.cols[InputColumns[i]].cells == [record[i]]
    ensures r.Ok? ==> r.value.cols[TotalCharges].cells == [CoerceCell(record[18], parse)]
    ensures r.Ok? ==> IsNumeric(r.value.cols[TotalCharges].dtype)
  {
    ColumnListsSplitInput();
    match WrapRecord(record)
    case Err(e) => Err(e)
    case Ok(df) => Ok(Assign(df, TotalCharges, ToNumeric(df.cols[TotalCharges], parse)))
  }

  /** The encoder's column names are new: no two alike and none a numeric
      field. */
  predicate IndicatorsFresh(df: Frame, cats: seq<string>, nums: seq<string>, fit: Fit) {
    && AllIn(df, cats)
    && Distinct(IndicatorNames(df, cats, fit))
    && forall n :: n in IndicatorNames(df, cats, fit) ==> n !in nums
  }

  /** The engineered row (lines 34-45): the numeric fields, scaled, followed
      by the indicator columns of the categorical fields. */
  function Engineered(df: Frame, cats: seq<string>, nums: seq<string>, fit: Fit, scale: ColumnMap): (r: Frame)
    requires WellFormed(df) && Distinct(nums) && AllIn(df, nums)
    requires IndicatorsFresh(df, cats, nums, fit)
    ensures WellFormed(r) && r.rows == df.rows
    ensures r.names == nums + IndicatorNames(df, cats, fit)
    ensures forall c :: c in nums ==> r.cols[c] == Column(Float64, scale(df.cols[c].cells))
    ensures forall i, j :: 0 <= i < |cats| && 0 <= j < |Block(df, cats[i], fit)| ==>
      Block(df, cats[i], fit)[j].name in r.cols
    ensures forall i, j :: 0 <= i < |cats| && 0 <= j < |Block(df, cats[i], fit)| ==>
      r.cols[Block(df, cats[i], fit)[j].name]
        == IndicatorColumn(df.cols[cats[i]].cells, Block(df, cats[i], fit)[j].category)
  {
    var encoded := Encode(df, cats, fit);
    var joined := Concat(SelectColumns(df, nums), encoded);
    UpdateColumns(joined, nums, scale, ToFloat64)
  }

  /** `final_df[col] = 0` when the column is absent, as one pass of the loop. */
  function PadOne(f: Frame, c: string): (r: Frame)
    requires WellFormed(f)
    ensures WellFormed(r) && r.rows == f.rows
    ensures c in f.cols ==> r == f
    ensures c !in f.cols ==> r.names == f.names + [c] && r.cols == f.cols[c := ZeroColumn(f.rows)]
  {
    if c in f.cols then f else Assign(f, c, ZeroColumn(f.rows))
  }

  /** The frame after the padding loop has visited `features` in order. */
  function Padded(f: Frame, features: seq<string>): (r: Frame)
    requires WellFormed(f)
    ensures WellFormed(r) && r.rows == f.rows
    decreases |features|
  {
    if features == [] then f
    else PadOne(Padded(f, features[..|features| - 1]), features[|features| - 1])
  }

  /** The padding loop only appends: the old columns keep their place and
      their cells, and each feature the frame lacked is added as zeros. */
  lemma {:induction false} PaddingOnlyAppends(f: Frame, features: seq<string>)
    requires WellFormed(f)
    ensures |Padded(f, features).names| >= |f.names|
    ensures Padded(f, features).names[..|f.names|] == f.names
    ensures forall c :: c in Padded(f, features).cols <==> c in f.cols || c in features
    ensures forall c :: c in f.cols ==> Padded(f, features).cols[c] == f.cols[c]
    ensures forall c :: c in features && c !in f.cols ==> Padded(f, features).cols[c] == ZeroColumn(f.rows)
    decreases |features|
  {
    if features != [] {
      var init := features[..|features| - 1];
      var c := features[|features| - 1];
      assert features == init + [c];
      PaddingOnlyAppends(f, init);
      var g := Padded(f, init);
      if c !in g.cols {
        assert (g.names + [c])[..|f.names|] == g.names[..|f.names|];
      }
    }
  }

  /** When every feature is already there the loop adds nothing. */
  lemma {:induction false} NothingToPad(f: Frame, features: seq<string>)
    requires WellFormed(f) && forall c :: c in features ==> c in f.cols
    ensures Padded(f, features) == f
    decreases |features|
  {
    if features != [] {
      NothingToPad(f, features[..|features| - 1]);
      assert features[|features| - 1] in features;
    }
  }

  /** Padding before the reindex makes no difference to its result. */
  lemma ReindexAfterPaddingIsReindex(f: Frame, features: seq<string>)
    requires WellFormed(f) && Distinct(features)
    ensures Reindexed(Padded(f, features), features) == Reindexed(f, features)
  {
    PaddingOnlyAppends(f, features);
    var a := Reindexed(Padded(f, features), features);
    var b := Reindexed(f, features);
    assert a.cols == b.cols;
  }

  /** The reconciliation of lines 48-58: with recorded feature names the row
      has exactly those columns in that order, each engineered one unchanged
      and each other one zero; without them the row passes through. */
  function Reconcile(engineered: Frame, featureNames: Option<seq<string>>): (r: Frame)
    requires WellFormed(engineered)
    requires featureNames.Some? ==> Distinct(featureNames.value)
    ensures WellFormed(r) && r.rows == engineered.rows
    ensures featureNames.None? ==> r == engineered
    ensures featureNames.Some? ==> r.names == featureNames.value
    ensures featureNames.Some? ==> forall c :: c in featureNames.value ==>
      r.cols[c] == if c in engineered.cols then engineered.cols[c] else ZeroColumn(engineered.rows)
    ensures featureNames.Some? ==> forall c :: c in engineered.cols && c !in featureNames.value ==> c !in r.cols
  {
    match featureNames
    case None => engineered
    case Some(features) =>
      ReindexAfterPaddingIsReindex(engineered, features);
      Reindexed(Padded(engineered, features), features)
  }

  /** `"Will Churn" if prediction[0] == 1 else "Will Not Churn"` */
  function ChurnLabel(prediction: int): (verdict: string)
    ensures verdict == "Will Churn" || verdict == "Will Not Churn"
    ensures verdict == "Will Churn" <==> prediction == 1
  {
    if prediction == 1 then "Will Churn" else "Will Not Churn"
  }

  predicate ServingPre(model: Model, record: seq<Cell>, parse: Parser, fit: Fit) {
    && (InputFrame(record, parse).Ok? ==>
          IndicatorsFresh(InputFrame(record, parse).value, CategoricalColumns, NumericColumns, fit))
    && (model.featureNames.Some? ==> Distinct(model.featureNames.value))
  }

  /** The row the model is asked about. */
  function ServedRow(model: Model, record: seq<Cell>, parse: Parser, fit: Fit, scale: ColumnMap): (r: Frame)
    requires ServingPre(model, record, parse, fit) && |record| == |InputColumns|
    ensures WellFormed(r) && r.rows == 1
    ensures model.featureNames.Some? ==> r.names == model.featureNames.value
    ensures model.featureNames.None? ==>
      r.names == NumericColumns + IndicatorNames(InputFrame(record, parse).value, CategoricalColumns, fit)
  {
    var df := InputFrame(record, parse).value;
    ColumnListsSplitInput();
    Reconcile(Engineered(df, CategoricalColumns, NumericColumns, fit, scale), model.featureNames)
  }

  /** Lines 34-45 on the frame: encode, concatenate, and scale the numeric
      columns of the result in place. */
  method EngineerRow(df: DataFrame, cats: seq<string>, nums: seq<string>, fit: Fit, scale: ColumnMap)
    returns (finalDf: DataFrame)
    requires df.Valid() && Distinct(nums) && AllIn(df.Value(), nums)
    requires IndicatorsFresh(df.Value(), cats, nums, fit)
    ensures fresh(finalDf) && finalDf.Valid()
    ensures finalDf.Value() == Engineered(df.Value(), cats, nums, fit, scale)
  {
    var encoded := Encode(df.Value(), cats, fit);
    finalDf := new DataFrame(Concat(SelectColumns(df.Value(), nums), encoded));
    finalDf.UpdateInPlace(nums, scale, ToFloat64);
  }

  /** The padding loop (lines 50-52), on the frame in place. */
  method PadMissingFeatures(frame: DataFrame, features: seq<string>)
    requires frame.Valid()
    modifies frame
    ensures frame.Valid() && frame.Value() == Padded(old(frame.Value()), features)
  {
    ghost var start := frame.Value();
    var i := 0;
    while i < |features|
      invariant 0 <= i <= |features|
      invariant frame.Valid()
      invariant frame.Value() == Padded(start, features[..i])
    {
      assert features[..i + 1][..i] == features[..i];
      if features[i] !in frame.cols {
        frame.SetColumn(features[i], ZeroColumn(frame.rows));
      }
      i := i + 1;
    }
    assert features[..|features|] == features;
  }

  /** `PredictionPipeline.predict` on one record. */
  method Predict(model: Model, record: seq<Cell>, parse: Parser, fit: Fit, scale: ColumnMap)
    returns (r: Result<string, PredictError>)
    requires ServingPre(model, record, parse, fit)
    ensures r.Err? <==> |record| != |InputColumns|
    ensures r.Ok? ==> r.value == ChurnLabel(model.classify(ServedRow(model, record, parse, fit, scale)))
  {
    var wrapped := WrapRecord(record);
    if wrapped.Err? {
      return Err(wrapped.error);
    }
    ColumnListsSplitInput();
    var df := new DataFrame(wrapped.value);
    df.SetColumn(TotalCharges, ToNumeric(df.cols[TotalCharges], parse));
    assert df.Value() == InputFrame(record, parse).value;
    var finalDf := EngineerRow(df, CategoricalColumns, NumericColumns, fit, scale);
    ghost var engineered := finalDf.Value();
    match model.featureNames {
      case None =>
      case Some(features) =>
        PadMissingFeatures(finalDf, features);
        finalDf := finalDf.Reindex(features);
    }
    assert finalDf.Value() == Reconcile(engineered, model.featureNames);
    var prediction := model.classify(finalDf.Value());
    r := Ok(ChurnLabel(prediction));
  }
}
