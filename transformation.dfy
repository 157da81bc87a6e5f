/** Training-time data shaping (`DataTransformation.initiate_data_transformation`):
    the identifier column goes, `TotalCharges` becomes numeric, the target is
    split off and encoded as 0/1, the remaining columns are split by dtype
    into categorical and numeric ones, the numeric ones are imputed and
    scaled, the categorical ones one-hot encoded, and the rows are split into
    a train and a test partition, each with the target as its last column.
    The CSV files read and written are values here: the loaded dataset comes
    in as a frame and the two partitions go out as frames. */
module Transformation {
  import opened Seqs
  import opened Frames
  import opened OneHot

  const IdColumn: string := "customerID"

  /** The one target value encoded as 1. */
  const Positive: Cell := Text("Yes")

  /** `data.drop(columns=[target_col])` raises a KeyError when the column is absent. */
  datatype TransformError = MissingTarget(name: string)

  datatype Split = Split(train: Frame, test: Frame)

  /** Lines 18-19: the identifier column is dropped when present; otherwise
      nothing changes. */
  function DropIdentifier(f: Frame): (r: Frame)
    requires WellFormed(f)
    ensures WellFormed(r) && r.rows == f.rows
    ensures IdColumn !in f.cols ==> r == f
    ensures forall c :: c in r.cols <==> c in f.cols && c != IdColumn
    ensures forall c :: c in r.cols ==> r.cols[c] == f.cols[c]
    ensures forall i :: 0 <= i < |f.names| && f.names[i] == IdColumn ==> r.names == f.names[..i] + f.names[i+1..]
  {
    if IdColumn in f.cols then DropColumn(f, IdColumn) else f
  }

  /** Lines 22-24: when present, `TotalCharges` is coerced cell by cell; no
      other column changes and the column order stays. */
  function CoerceTotalCharges(f: Frame, parse: Parser): (r: Frame)
    requires WellFormed(f)
    ensures WellFormed(r) && r.names == f.names && r.rows == f.rows
    ensures forall c :: c in f.cols && c != TotalCharges ==> r.cols[c] == f.cols[c]
    ensures TotalCharges !in f.cols ==> r == f
    ensures TotalCharges in f.cols ==> IsNumeric(r.cols[TotalCharges].dtype)
    ensures TotalCharges in f.cols ==> forall i :: 0 <= i < f.rows ==>
      r.cols[TotalCharges].cells[i] == CoerceCell(f.cols[TotalCharges].cells[i], parse)
  {
    if TotalCharges in f.cols then Assign(f, TotalCharges, ToNumeric(f.cols[TotalCharges], parse)) else f
  }

  function Prepared(raw: Frame, parse: Parser): (r: Frame)
    requires WellFormed(raw)
    ensures WellFormed(r) && r.rows == raw.rows
    ensures forall c :: c in r.cols <==> c in raw.cols && c != IdColumn
    ensures forall c :: c in r.cols && c != TotalCharges ==> r.cols[c] == raw.cols[c]
    ensures TotalCharges in r.cols ==> r.cols[TotalCharges] == ToNumeric(raw.cols[TotalCharges], parse)
  {
    CoerceTotalCharges(DropIdentifier(raw), parse)
  }

  /** Line 29: exactly "Yes" is 1, every other value (including a missing
      one) is 0. */
  function EncodeTarget(cells: seq<Cell>): (y: seq<int>)
    ensures |y| == |cells|
    ensures forall i :: 0 <= i < |cells| ==> (y[i] == 1 <==> cells[i] == Positive)
    ensures forall i :: 0 <= i < |cells| ==> y[i] == 0 || y[i] == 1
  {
    seq(|cells|, i requires 0 <= i < |cells| => if cells[i] == Positive then 1 else 0)
  }

  /** Line 32: the `object` columns, in frame order. */
  function CategoricalColumns(X: Frame): (cats: seq<string>)
    requires WellFormed(X)
    ensures forall c :: c in cats <==> c in X.cols && X.cols[c].dtype == Object
    ensures Subseq(cats, X.names) && Distinct(cats)
  {
    var keep := (c: string) => c in X.cols && X.cols[c].dtype == Object;
    FilterDistinct(X.names, keep);
    Filter(X.names, keep)
  }

  /** Line 33: the `int64` and `float64` columns, in frame order. */
  function NumericColumns(X: Frame): (nums: seq<string>)
    requires WellFormed(X)
    ensures forall c :: c in nums <==> c in X.cols && IsNumeric(X.cols[c].dtype)
    ensures Subseq(nums, X.names) && Distinct(nums)
  {
    var keep := (c: string) => c in X.cols && IsNumeric(X.cols[c].dtype);
    FilterDistinct(X.names, keep);
    Filter(X.names, keep)
  }

  /** No column is both categorical and numeric, and a column of any other
      dtype is neither. */
  lemma DTypeSplitDisjoint(X: Frame)
    requires WellFormed(X)
    ensures forall c :: c in CategoricalColumns(X) ==> c !in NumericColumns(X)
    ensures forall c :: c in X.cols && X.cols[c].dtype.OtherDType? ==>
      c !in CategoricalColumns(X) && c !in NumericColumns(X)
  {
  }

  /** The feature columns: the prepared data without the target. */
  function FeatureColumns(data: Frame, target: string): (X: Frame)
    requires WellFormed(data) && target in data.cols
    ensures WellFormed(X) && X.rows == data.rows && target !in X.cols
    ensures forall c :: c in X.cols <==> c in data.cols && c != target
    ensures forall c :: c in X.cols ==> X.cols[c] == data.cols[c]
    ensures forall i :: 0 <= i < |data.names| && data.names[i] == target ==> X.names == data.names[..i] + data.names[i+1..]
  {
    DropColumn(data, target)
  }

  /** The encoder's names are new: no two alike, none a numeric column, none
      the target. */
  predicate EncoderFresh(X: Frame, target: string, fit: Fit)
    requires WellFormed(X)
  {
    && Distinct(IndicatorNames(X, CategoricalColumns(X), fit))
    && forall n :: n in IndicatorNames(X, CategoricalColumns(X), fit) ==> n !in NumericColumns(X) && n != target
  }

  /** Lines 36-37: `fillna` with each numeric column's median, which fills
      only the missing cells; each column keeps its dtype, the other columns
      stay as they are and nothing happens when there are no numeric columns. */
  function Imputed(X: Frame, nums: seq<string>, impute: ColumnMap): (r: Frame)
    requires WellFormed(X) && AllIn(X, nums)
    ensures WellFormed(r) && r.names == X.names && r.rows == X.rows
    ensures forall c :: c in X.cols && c !in nums ==> r.cols[c] == X.cols[c]
    ensures forall c :: c in nums ==> r.cols[c] == Column(X.cols[c].dtype, impute(X.cols[c].cells))
  {
    if |nums| > 0 then UpdateColumns(X, nums, impute, KeepDType) else X
  }

  /** Lines 49-51: `StandardScaler` on the numeric columns, which become
      `float64`; the other columns stay as they are. */
  function Scaled(X: Frame, nums: seq<string>, scale: ColumnMap): (r: Frame)
    requires WellFormed(X) && AllIn(X, nums)
    ensures WellFormed(r) && r.names == X.names && r.rows == X.rows
    ensures forall c :: c in X.cols && c !in nums ==> r.cols[c] == X.cols[c]
    ensures forall c :: c in nums ==> r.cols[c] == Column(Float64, scale(X.cols[c].cells))
  {
    if |nums| > 0 then UpdateColumns(X, nums, scale, ToFloat64) else X
  }

  /** What the feature steps need of the column lists: both inside the frame,
      no column in both, and indicator names that are new. */
  predicate ListsFit(X: Frame, cats: seq<string>, nums: seq<string>, fit: Fit) {
    && WellFormed(X) && AllIn(X, cats) && AllIn(X, nums) && Distinct(nums)
    && (forall c :: c in cats ==> c !in nums)
    && Distinct(IndicatorNames(X, cats, fit))
    && (forall n :: n in IndicatorNames(X, cats, fit) ==> n !in nums)
  }

  /** Lines 40-46: with categorical columns, the numeric columns followed by
      the indicator columns; without them the frame as it is. */
  function Layout(X: Frame, cats: seq<string>, nums: seq<string>, fit: Fit): (r: Frame)
    requires ListsFit(X, cats, nums, fit)
    ensures WellFormed(r) && r.rows == X.rows && AllIn(r, nums)
    ensures |cats| > 0 ==> r.names == nums + IndicatorNames(X, cats, fit)
    ensures |cats| == 0 ==> r == X
    ensures |cats| > 0 ==> forall c :: c in nums ==> r.cols[c] == X.cols[c]
    ensures |cats| > 0 ==> forall i, j :: 0 <= i < |cats| && 0 <= j < |Block(X, cats[i], fit)| ==>
      Block(X, cats[i], fit)[j].name in r.cols
    ensures |cats| > 0 ==> forall i, j :: 0 <= i < |cats| && 0 <= j < |Block(X, cats[i], fit)| ==>
      r.cols[Block(X, cats[i], fit)[j].name] == IndicatorColumn(X.cols[cats[i]].cells, Block(X, cats[i], fit)[j].category)
  {
    if |cats| > 0 then Concat(SelectColumns(X, nums), Encode(X, cats, fit)) else X
  }

  /** Imputation does not touch the categorical columns, so the encoder sees
      the same columns whether it runs before or after it. */
  lemma ImputeKeepsListsFit(X: Frame, cats: seq<string>, nums: seq<string>, fit: Fit, impute: ColumnMap)
    requires ListsFit(X, cats, nums, fit)
    ensures ListsFit(Imputed(X, nums, impute), cats, nums, fit)
    ensures IndicatorNames(Imputed(X, nums, impute), cats, fit) == IndicatorNames(X, cats, fit)
    ensures Encode(Imputed(X, nums, impute), cats, fit) == Encode(X, cats, fit)
  {
    EncodeAgrees(X, Imputed(X, nums, impute), cats, fit);
  }

  /** Lines 36-51 on given column lists: impute, lay out, scale. */
  function Features(X: Frame, cats: seq<string>, nums: seq<string>, impute: ColumnMap, scale: ColumnMap, fit: Fit): (r: Frame)
    requires ListsFit(X, cats, nums, fit)
    ensures WellFormed(r) && r.rows == X.rows
    ensures forall c :: c in r.cols ==> c in X.cols || c in IndicatorNames(X, cats, fit)
  {
    var X1 := Imputed(X, nums, impute);
    ImputeKeepsListsFit(X, cats, nums, fit, impute);
    Scaled(Layout(X1, cats, nums, fit), nums, scale)
  }

  /** The lists the stage computes meet what the feature steps need. */
  lemma DerivedListsFit(X: Frame, target: string, fit: Fit)
    requires WellFormed(X) && EncoderFresh(X, target, fit)
    ensures ListsFit(X, CategoricalColumns(X), NumericColumns(X), fit)
  {
    DTypeSplitDisjoint(X);
  }

  /** Lines 28-51: the feature matrix, before the split. */
  function FeatureMatrix(data: Frame, target: string, impute: ColumnMap, scale: ColumnMap, fit: Fit): (r: Frame)
    requires WellFormed(data) && target in data.cols
    requires EncoderFresh(FeatureColumns(data, target), target, fit)
    ensures WellFormed(r) && r.rows == data.rows && target !in r.cols
  {
    var X0 := FeatureColumns(data, target);
    DerivedListsFit(X0, target, fit);
    Features(X0, CategoricalColumns(X0), NumericColumns(X0), impute, scale, fit)
  }

  /** The 0/1 target as the int64 column `y` becomes in the saved file. */
  function TargetColumn(y: seq<int>): (col: Column)
    ensures col.dtype == Int64 && |col.cells| == |y|
    ensures forall i :: 0 <= i < |y| ==> col.cells[i] == Num(y[i] as real)
  {
    Column(Int64, seq(|y|, i requires 0 <= i < |y| => Num(y[i] as real)))
  }

  /** The features with the target appended as the last column. */
  function Labelled(X: Frame, target: string, y: seq<int>): (r: Frame)
    requires WellFormed(X) && target !in X.cols && |y| == X.rows
    ensures WellFormed(r) && r.names == X.names + [target] && r.rows == X.rows
  {
    Assign(X, target, TargetColumn(y))
  }

  /** Lines 54 and 60-61 for one partition: the rows at `idx` of the
      features, then the same rows of the target concatenated as the last
      column. Its rows are exactly the labelled rows at `idx`. */
  function Partition(X: Frame, target: string, y: seq<int>, idx: seq<nat>): (r: Frame)
    requires WellFormed(X) && target !in X.cols && |y| == X.rows && InBounds(idx, X.rows)
    ensures WellFormed(r) && r.names == X.names + [target] && r.rows == |idx|
    ensures Rows(r) == Select(Rows(Labelled(X, target, y)), idx)
  {
    var part := Assign(TakeRows(X, idx), target, TargetColumn(Select(y, idx)));
    var whole := TakeRows(Labelled(X, target, y), idx);
    assert whole.cols[target].cells == TargetColumn(Select(y, idx)).cells;
    assert part.cols == whole.cols;
    part
  }

  /** What `train_test_split` hands back: the two index lists together are
      a rearrangement of all row positions. */
  predicate IsPartition(trainIdx: seq<nat>, testIdx: seq<nat>, n: nat) {
    multiset(trainIdx + testIdx) == multiset(Range(n))
  }

  predicate TransformPre(raw: Frame, target: string, parse: Parser, fit: Fit, trainIdx: seq<nat>, testIdx: seq<nat>) {
    && WellFormed(raw)
    && IsPartition(trainIdx, testIdx, raw.rows)
    && (target in Prepared(raw, parse).cols ==>
          EncoderFresh(FeatureColumns(Prepared(raw, parse), target), target, fit))
  }

  lemma PartitionInBounds(trainIdx: seq<nat>, testIdx: seq<nat>, n: nat)
    requires IsPartition(trainIdx, testIdx, n)
    ensures InBounds(trainIdx, n) && InBounds(testIdx, n)
    ensures |trainIdx| + |testIdx| == n
  {
    assert |multiset(trainIdx + testIdx)| == |multiset(Range(n))|;
    forall k | 0 <= k < |trainIdx| ensures trainIdx[k] < n {
      assert (trainIdx + testIdx)[k] == trainIdx[k];
      assert trainIdx[k] in multiset(Range(n));
    }
    forall k | 0 <= k < |testIdx| ensures testIdx[k] < n {
      assert (trainIdx + testIdx)[|trainIdx| + k] == testIdx[k];
      assert testIdx[k] in multiset(Range(n));
    }
  }

  /** The whole stage, from the loaded dataset to the two saved partitions. */
  function Transform(raw: Frame, target: string, parse: Parser, impute: ColumnMap, scale: ColumnMap,
                     fit: Fit, trainIdx: seq<nat>, testIdx: seq<nat>): (r: Result<Split, TransformError>)
    requires TransformPre(raw, target, parse, fit, trainIdx, testIdx)
    ensures r.Err? <==> target !in Prepared(raw, parse).cols
    ensures r.Err? ==> r.error == MissingTarget(target)
    ensures r.Ok? ==> r.value.train.names == r.value.test.names
    ensures r.Ok? ==> r.value.train.rows == |trainIdx| && r.value.test.rows == |testIdx|
    ensures r.Ok? ==> r.value.train.rows + r.value.test.rows == raw.rows
  {
    var data := Prepared(raw, parse);
    if target !in data.cols then Err(MissingTarget(target))
    else
      var X := FeatureMatrix(data, target, impute, scale, fit);
      var y := EncodeTarget(data.cols[target].cells);
      PartitionInBounds(trainIdx, testIdx, raw.rows);
      Ok(Split(Partition(X, target, y, trainIdx), Partition(X, target, y, testIdx)))
  }

  /** The stage fails exactly when the target column is not in the prepared
      data: absent from the file, or the identifier column itself. */
  lemma FailsOnlyWithoutTarget(raw: Frame, target: string, parse: Parser, impute: ColumnMap, scale: ColumnMap,
                               fit: Fit, trainIdx: seq<nat>, testIdx: seq<nat>)
    requires TransformPre(raw, target, parse, fit, trainIdx, testIdx)
    ensures Transform(raw, target, parse, impute, scale, fit, trainIdx, testIdx).Err?
        <==> target !in raw.cols || target == IdColumn
    ensures Transform(raw, target, parse, impute, scale, fit, trainIdx, testIdx).Err? ==>
      Transform(raw, target, parse, impute, scale, fit, trainIdx, testIdx).error == MissingTarget(target)
  {
  }

  /** The layout of the features: with categorical columns, the numeric
      columns (imputed, then scaled) and after them every indicator column in
      encoder order, each the indicator of its category over the original
      cells; without categorical columns, the frame's own column order. */
  lemma FeaturesLayout(X: Frame, cats: seq<string>, nums: seq<string>, impute: ColumnMap, scale: ColumnMap, fit: Fit)
    requires ListsFit(X, cats, nums, fit)
    ensures |cats| > 0 ==> Features(X, cats, nums, impute, scale, fit).names == nums + IndicatorNames(X, cats, fit)
    ensures |cats| == 0 ==> Features(X, cats, nums, impute, scale, fit).names == X.names
    ensures forall c :: c in nums ==>
      Features(X, cats, nums, impute, scale, fit).cols[c] == Column(Float64, scale(impute(X.cols[c].cells)))
    ensures |cats| > 0 ==> forall i, j :: 0 <= i < |cats| && 0 <= j < |Block(X, cats[i], fit)| ==>
      Block(X, cats[i], fit)[j].name in Features(X, cats, nums, impute, scale, fit).cols &&
      Features(X, cats, nums, impute, scale, fit).cols[Block(X, cats[i], fit)[j].name]
        == IndicatorColumn(X.cols[cats[i]].cells, Block(X, cats[i], fit)[j].category)
  {
    var X1 := Imputed(X, nums, impute);
    ImputeKeepsListsFit(X, cats, nums, fit, impute);
    var L := Layout(X1, cats, nums, fit);
    var F := Features(X, cats, nums, impute, scale, fit);
    assert F == Scaled(L, nums, scale);
    if |cats| > 0 {
      forall i, j | 0 <= i < |cats| && 0 <= j < |Block(X, cats[i], fit)|
        ensures Block(X, cats[i], fit)[j].name in F.cols
        ensures F.cols[Block(X, cats[i], fit)[j].name] == IndicatorColumn(X.cols[cats[i]].cells, Block(X, cats[i], fit)[j].category)
      {
        assert cats[i] in cats;
        assert Block(X1, cats[i], fit) == Block(X, cats[i], fit);
        var n := Block(X, cats[i], fit)[j].name;
        assert n in IndicatorNames(X, cats, fit);
      }
    }
  }

  /** On the stage's own column lists: with categorical columns present the
      features are the numeric columns in frame order, then the indicators,
      and a column of any other dtype is gone (unless the encoder happens to
      reuse its name). */
  lemma FeatureMatrixLayout(data: Frame, target: string, impute: ColumnMap, scale: ColumnMap, fit: Fit)
    requires WellFormed(data) && target in data.cols
    requires EncoderFresh(FeatureColumns(data, target), target, fit)
    requires |CategoricalColumns(FeatureColumns(data, target))| > 0
    ensures var X0 := FeatureColumns(data, target);
      FeatureMatrix(data, target, impute, scale, fit).names
        == NumericColumns(X0) + IndicatorNames(X0, CategoricalColumns(X0), fit)
    ensures var X0 := FeatureColumns(data, target);
      forall c :: c in X0.cols && X0.cols[c].dtype.OtherDType? && c !in IndicatorNames(X0, CategoricalColumns(X0), fit) ==>
        c !in FeatureMatrix(data, target, impute, scale, fit).cols
  {
    var X0 := FeatureColumns(data, target);
    DerivedListsFit(X0, target, fit);
    DTypeSplitDisjoint(X0);
    FeaturesLayout(X0, CategoricalColumns(X0), NumericColumns(X0), impute, scale, fit);
  }

  /** Rows of one frame's indicator block, when each indicator column of the
      block is in place: a single 1 per row. */
  lemma OneHotInFrame(F: Frame, block: seq<Indicator>, cells: seq<Cell>, r: nat)
    requires WellFormed(F) && F.rows == |cells| && FitsCells(block, cells) && r < |cells|
    requires forall j :: 0 <= j < |block| ==>
      block[j].name in F.cols && F.cols[block[j].name] == IndicatorColumn(cells, block[j].category)
    ensures |set j | 0 <= j < |block| && F.cols[block[j].name].cells[r] == Num(1.0)| == 1
  {
    ExactlyOneHot(block, cells, r);
    assert (set j | 0 <= j < |block| && F.cols[block[j].name].cells[r] == Num(1.0))
        == (set j | 0 <= j < |block| && IndicatorColumn(cells, block[j].category).cells[r] == Num(1.0));
  }

  /** When each encoder was fit on the column it encodes, every row of the
      features has a single 1 among the indicators of each categorical
      column. */
  lemma OneHotPerRow(X: Frame, cats: seq<string>, nums: seq<string>, impute: ColumnMap, scale: ColumnMap,
                     fit: Fit, i: nat, r: nat)
    requires ListsFit(X, cats, nums, fit) && i < |cats| && r < X.rows
    requires FitsCells(Block(X, cats[i], fit), X.cols[cats[i]].cells)
    ensures |set j | 0 <= j < |Block(X, cats[i], fit)| &&
              Features(X, cats, nums, impute, scale, fit).cols[Block(X, cats[i], fit)[j].name].cells[r] == Num(1.0)| == 1
  {
    FeaturesLayout(X, cats, nums, impute, scale, fit);
    assert cats[i] in cats;
    OneHotInFrame(Features(X, cats, nums, impute, scale, fit), Block(X, cats[i], fit), X.cols[cats[i]].cells, r);
  }

  /** One partition's target column holds the encoded target of the rows it
      took, and the target is its last column. */
  lemma PartitionLabels(X: Frame, target: string, y: seq<int>, idx: seq<nat>)
    requires WellFormed(X) && target !in X.cols && |y| == X.rows && InBounds(idx, X.rows)
    ensures Partition(X, target, y, idx).names[|X.names|] == target
    ensures forall k :: 0 <= k < |idx| ==> Partition(X, target, y, idx).cols[target].cells[k] == Num(y[idx[k]] as real)
  {
    var P := Partition(X, target, y, idx);
    var L := Labelled(X, target, y);
    var last := |X.names|;
    forall k | 0 <= k < |idx|
      ensures P.cols[target].cells[k] == Num(y[idx[k]] as real)
    {
      assert Rows(P)[k] == Row(L, idx[k]);
      assert Row(P, k)[last] == P.cols[target].cells[k];
      assert Row(L, idx[k])[last] == L.cols[target].cells[idx[k]];
    }
  }

  /** Two index lists that rearrange all positions split the labelled rows:
      sizes add up and the rows together are those of the whole frame. */
  lemma PartitionsCover(X: Frame, target: string, y: seq<int>, trainIdx: seq<nat>, testIdx: seq<nat>)
    requires WellFormed(X) && target !in X.cols && |y| == X.rows && IsPartition(trainIdx, testIdx, X.rows)
    ensures InBounds(trainIdx, X.rows) && InBounds(testIdx, X.rows)
    ensures |trainIdx| + |testIdx| == X.rows
    ensures multiset(Rows(Partition(X, target, y, trainIdx)) + Rows(Partition(X, target, y, testIdx)))
         == multiset(Rows(Labelled(X, target, y)))
  {
    PartitionInBounds(trainIdx, testIdx, X.rows);
    var rows := Rows(Labelled(X, target, y));
    assert |multiset(trainIdx + testIdx)| == |multiset(Range(X.rows))|;
    SelectPermutation(rows, trainIdx + testIdx);
    assert Select(rows, trainIdx) + Select(rows, testIdx) == Select(rows, trainIdx + testIdx);
  }

  /** What a successful run returns, spelled out by its parts. */
  lemma TransformOk(raw: Frame, target: string, parse: Parser, impute: ColumnMap, scale: ColumnMap,
                    fit: Fit, trainIdx: seq<nat>, testIdx: seq<nat>)
    requires TransformPre(raw, target, parse, fit, trainIdx, testIdx)
    requires target in Prepared(raw, parse).cols
    ensures InBounds(trainIdx, raw.rows) && InBounds(testIdx, raw.rows)
    ensures var data := Prepared(raw, parse);
      var F := FeatureMatrix(data, target, impute, scale, fit);
      var y := EncodeTarget(data.cols[target].cells);
      Transform(raw, target, parse, impute, scale, fit, trainIdx, testIdx)
        == Ok(Split(Partition(F, target, y, trainIdx), Partition(F, target, y, testIdx)))
  {
    PartitionInBounds(trainIdx, testIdx, raw.rows);
  }

  /** Both partitions have the feature columns followed by the target as the
      last column (and nowhere else). */
  lemma TargetIsLastColumn(raw: Frame, target: string, parse: Parser, impute: ColumnMap, scale: ColumnMap,
                           fit: Fit, trainIdx: seq<nat>, testIdx: seq<nat>)
    requires TransformPre(raw, target, parse, fit, trainIdx, testIdx)
    requires Transform(raw, target, parse, impute, scale, fit, trainIdx, testIdx).Ok?
    ensures var s := Transform(raw, target, parse, impute, scale, fit, trainIdx, testIdx).value;
      && s.train.names == s.test.names
      && |s.train.names| > 0 && s.train.names[|s.train.names| - 1] == target
      && target !in s.train.names[..|s.train.names| - 1]
  {
    var data := Prepared(raw, parse);
    var F := FeatureMatrix(data, target, impute, scale, fit);
    var y := EncodeTarget(data.cols[target].cells);
    TransformOk(raw, target, parse, impute, scale, fit, trainIdx, testIdx);
    var train := Partition(F, target, y, trainIdx);
    assert train.names[..|train.names| - 1] == F.names;
  }

  /** The target column of the training partition holds 1 exactly where the
      row it took had "Yes" as its target value, and 0 everywhere else. */
  lemma TrainLabelsAreEncodedTarget(raw: Frame, target: string, parse: Parser, impute: ColumnMap, scale: ColumnMap,
                                    fit: Fit, trainIdx: seq<nat>, testIdx: seq<nat>, k: nat)
    requires TransformPre(raw, target, parse, fit, trainIdx, testIdx)
    requires Transform(raw, target, parse, impute, scale, fit, trainIdx, testIdx).Ok?
    requires k < |trainIdx|
    ensures trainIdx[k] < raw.rows
    ensures target in Prepared(raw, parse).cols && |Prepared(raw, parse).cols[target].cells| == raw.rows
    ensures target in Transform(raw, target, parse, impute, scale, fit, trainIdx, testIdx).value.train.cols
    ensures |Transform(raw, target, parse, impute, scale, fit, trainIdx, testIdx).value.train.cols[target].cells| == |trainIdx|
    ensures Transform(raw, target, parse, impute, scale, fit, trainIdx, testIdx).value.train.cols[target].cells[k]
         == if Prepared(raw, parse).cols[target].cells[trainIdx[k]] == Positive then Num(1.0) else Num(0.0)
  {
    var data := Prepared(raw, parse);
    var F := FeatureMatrix(data, target, impute, scale, fit);
    var y := EncodeTarget(data.cols[target].cells);
    TransformOk(raw, target, parse, impute, scale, fit, trainIdx, testIdx);
    PartitionLabelAt(F, target, data.cols[target].cells, trainIdx, k);
  }

  /** Row `k` of a partition is labelled from the target value of the row
      at `idx[k]`. */
  lemma PartitionLabelAt(X: Frame, target: string, cells: seq<Cell>, idx: seq<nat>, k: nat)
    requires WellFormed(X) && target !in X.cols && |cells| == X.rows && InBounds(idx, X.rows) && k < |idx|
    ensures Partition(X, target, EncodeTarget(cells), idx).cols[target].cells[k]
         == if cells[idx[k]] == Positive then Num(1.0) else Num(0.0)
  {
    PartitionLabels(X, target, EncodeTarget(cells), idx);
    TargetCellEncoding(cells, idx[k]);
  }

  lemma TargetCellEncoding(cells: seq<Cell>, i: nat)
    requires i < |cells|
    ensures Num(EncodeTarget(cells)[i] as real) == if cells[i] == Positive then Num(1.0) else Num(0.0)
  {
  }

  /** `train_test_split` loses and duplicates nothing: the partitions'
      sizes add up to the dataset's, and their rows together are the
      labelled rows rearranged. */
  lemma RowsArePartitioned(raw: Frame, target: string, parse: Parser, impute: ColumnMap, scale: ColumnMap,
                           fit: Fit, trainIdx: seq<nat>, testIdx: seq<nat>)
    requires TransformPre(raw, target, parse, fit, trainIdx, testIdx)
    requires Transform(raw, target, parse, impute, scale, fit, trainIdx, testIdx).Ok?
    ensures var s := Transform(raw, target, parse, impute, scale, fit, trainIdx, testIdx).value;
      s.train.rows + s.test.rows == raw.rows
    ensures var s := Transform(raw, target, parse, impute, scale, fit, trainIdx, testIdx).value;
      var data := Prepared(raw, parse);
      multiset(Rows(s.train) + Rows(s.test))
        == multiset(Rows(Labelled(FeatureMatrix(data, target, impute, scale, fit), target,
                                  EncodeTarget(data.cols[target].cells))))
  {
    var data := Prepared(raw, parse);
    var F := FeatureMatrix(data, target, impute, scale, fit);
    var y := EncodeTarget(data.cols[target].cells);
    TransformOk(raw, target, parse, impute, scale, fit, trainIdx, testIdx);
    PartitionsCover(F, target, y, trainIdx, testIdx);
  }

  /** Lines 18-24 on the loaded frame in place. */
  method PrepareInPlace(data: DataFrame, parse: Parser)
    requires data.Valid()
    modifies data
    ensures data.Valid() && data.Value() == Prepared(old(data.Value()), parse)
  {
    if IdColumn in data.cols {
      data.DropInPlace(IdColumn);
    }
    if TotalCharges in data.cols {
      data.SetColumn(TotalCharges, ToNumeric(data.cols[TotalCharges], parse));
    }
  }

  /** Lines 36-51: the imputer and the scaler overwrite the numeric columns
      in place; the one-hot layout builds a new frame. */
  method BuildFeatures(X: DataFrame, cats: seq<string>, nums: seq<string>, impute: ColumnMap,
                       scale: ColumnMap, fit: Fit) returns (out: DataFrame)
    requires X.Valid() && ListsFit(X.Value(), cats, nums, fit)
    modifies X
    ensures out == X || fresh(out)
    ensures out.Valid() && out.Value() == Features(old(X.Value()), cats, nums, impute, scale, fit)
  {
    ghost var X0 := X.Value();
    if |nums| > 0 {
      X.UpdateInPlace(nums, impute, KeepDType);
    }
    assert X.Value() == Imputed(X0, nums, impute);
    ImputeKeepsListsFit(X0, cats, nums, fit, impute);
    out := X;
    if |cats| > 0 {
      var encoded := Encode(X.Value(), cats, fit);
      out := new DataFrame(Concat(SelectColumns(X.Value(), nums), encoded));
    }
    assert out.Value() == Layout(Imputed(X0, nums, impute), cats, nums, fit);
    if |nums| > 0 {
      out.UpdateInPlace(nums, scale, ToFloat64);
    }
  }

  /** `initiate_data_transformation`: the same stage, step by step on
      frames changed in place. */
  method InitiateDataTransformation(raw: Frame, target: string, parse: Parser, impute: ColumnMap,
                                    scale: ColumnMap, fit: Fit, trainIdx: seq<nat>, testIdx: seq<nat>)
    returns (r: Result<Split, TransformError>)
    requires TransformPre(raw, target, parse, fit, trainIdx, testIdx)
    ensures r == Transform(raw, target, parse, impute, scale, fit, trainIdx, testIdx)
  {
    var data := new DataFrame(raw);
    PrepareInPlace(data, parse);
    ghost var d := data.Value();
    assert d == Prepared(raw, parse);
    if target !in data.cols {
      return Err(MissingTarget(target));
    }
    var X := data.Drop(target);
    var y := EncodeTarget(data.cols[target].cells);
    assert y == EncodeTarget(d.cols[target].cells);
    ghost var X0 := X.Value();
    assert X0 == FeatureColumns(d, target);
    DerivedListsFit(X0, target, fit);
    var cats := CategoricalColumns(X.Value());
    var nums := NumericColumns(X.Value());
    X := BuildFeatures(X, cats, nums, impute, scale, fit);
    ghost var F := FeatureMatrix(d, target, impute, scale, fit);
    assert X.Value() == F;
    PartitionInBounds(trainIdx, testIdx, raw.rows);
    var train := Partition(X.Value(), target, y, trainIdx);
    var test := Partition(X.Value(), target, y, testIdx);
    r := Ok(Split(train, test));
  }
}
