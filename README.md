# Customer-churn pipeline: column bookkeeping, modelled in Dafny

The churn project wraps pandas and scikit-learn in three stages whose
column and record handling can be stated exactly:

- **schema validation** (`DataValidation.validate_all_columns`) compares the
  dataset's header with the schema's keys, fails only on missing columns and
  writes `Validation status: True|False`;
- **serving** (`PredictionPipeline.predict`) wraps one 19-field record,
  coerces `TotalCharges`, one-hot encodes and scales it, pads and reorders the
  columns to the model's `feature_names_in_`, and turns the model's output
  into "Will Churn" or "Will Not Churn";
- **training-time shaping** (`DataTransformation.initiate_data_transformation`)
  drops `customerID`, coerces `TotalCharges`, splits off and encodes the
  target, sorts the columns by dtype, imputes, one-hot encodes, scales, and
  writes a train and a test partition with the target as the last column.

A table is a `Frames.Frame`: an ordered list of distinct column names, a map
from each name to a `Column` (a dtype tag and its cells) and a row count.
A cell is text, a number or missing. The pieces the libraries decide are
parameters:

- the string-to-number parser;
- the encoder's categories, their order and the indicator names (`OneHot.Fit`);
- the median imputer and the scaler (`Frames.ColumnMap`, length-preserving);
- the model's feature names and its `predict`;
- the row positions `train_test_split` returns.

Modules:

- `Seqs`: filters, distinctness, index selection. Also the permutation lemma used for the row split.
- `Frames`: the pandas operations the stages use, as functions on `Frame`. Also a `DataFrame` class whose methods change a frame in place and are specified by those functions.
- `OneHot`: the encoder's output layout.
- `Validation`: pure; `validate_all_columns` is list logic.
- `Prediction`: imperative; the padding loop runs on a `DataFrame` in place, against the `Padded` specification.
- `Transformation`: mixed. The in-place steps are methods on `DataFrame`. The target encoding and dtype selection are functions. `InitiateDataTransformation` is proved equal to the specification `Transform`.

`pd.to_numeric(..., errors='coerce').fillna(0)` is `Frames.CoerceCell`:

- numbers stay as they are;
- missing values and blank or unparsable text become 0;
- text the parser accepts becomes its value.

## Model

| member | source | states |
|---|---|---|
| Validation.MissingColumns | src/mlProject/components/data_validation.py:18-21 | a column is listed iff the schema has it and the header does not; schema order and multiplicity are kept (a subsequence of the schema) |
| Validation.ExtraColumns | src/mlProject/components/data_validation.py:22 | a column is listed iff the header has it and the schema does not; header order kept (a subsequence of the header) |
| Validation.StatusText | src/mlProject/components/data_validation.py:37 | the status text is exactly "Validation status: True" or "Validation status: False", and is the True text iff the status is true |
| Validation.ValidateAllColumns | src/mlProject/components/data_validation.py:11-40 | status is true iff nothing is missing, iff every schema column is in the header; the written text always records the returned status |
| Validation.StatusTextInjective | src/mlProject/components/data_validation.py:37-40 | the two status texts differ, so the file tells pass from fail |
| Validation.OnlySchemaColumnsMatter | src/mlProject/components/data_validation.py:21-28 | two headers that agree on which schema columns they contain give the same missing list, status and text |
| Validation.ExtraColumnsNeverChangeTheResult | src/mlProject/components/data_validation.py:30-32 | appending non-schema columns leaves the missing list and the status unchanged |
| Validation.PermutedHeaderPasses | src/mlProject/components/data_validation.py:21-28 | a header that is a rearrangement of the schema keys has nothing missing, nothing extra, and passes with the True text |
| Validation.MissingAndExtraDisjoint | src/mlProject/components/data_validation.py:21-22 | no column is both missing and extra |
| Frames.CoerceCell | src/mlProject/pipeline/prediction.py:24 | the coerced cell is a number: numbers kept, missing, blank or unparsable text become 0, parsable text becomes its parsed value |
| Frames.ToNumeric | src/mlProject/components/data_transformation.py:24 | the column becomes numeric, keeps its length, and each cell is coerced in place |
| Frames.ToNumericIdempotent | src/mlProject/pipeline/prediction.py:24 | coercing an already coerced column changes nothing |
| Frames.DropColumn | src/mlProject/components/data_transformation.py:28 | exactly the named column goes; the others keep their cells and their relative order |
| Frames.ZeroColumn | src/mlProject/pipeline/prediction.py:52 | an int64 column of the given length whose every cell is 0 |
| Frames.SelectColumns | src/mlProject/pipeline/prediction.py:39 | the result has exactly the requested columns in that order, each the frame's own |
| Frames.Concat | src/mlProject/components/data_transformation.py:46 | side-by-side concatenation: the names of the first then the second, each column from its own frame, nothing else |
| Frames.UpdateColumns | src/mlProject/components/data_transformation.py:37 | the targeted columns get the map's cells and the new dtype, every other column and the order are unchanged |
| Frames.Assign | src/mlProject/pipeline/prediction.py:52 | assigning an existing column replaces it where it stands, a new one is appended last; no other column changes |
| Frames.Reindexed | src/mlProject/pipeline/prediction.py:55 | the result has exactly the requested columns in that order, each the original column if present and zeros otherwise; the other columns are gone |
| Frames.TakeRows | src/mlProject/components/data_transformation.py:60-61 | the rows of the result are the source rows at the given positions, in that order, under the same columns |
| Frames.DataFrame.DropInPlace | src/mlProject/components/data_transformation.py:19 | the frame afterwards is the frame without that column |
| Frames.DataFrame.SetColumn | src/mlProject/components/data_transformation.py:24 | the frame afterwards is the assignment of that column |
| Frames.DataFrame.UpdateInPlace | src/mlProject/components/data_transformation.py:37 | the targeted columns are overwritten by the map, the others unchanged |
| Frames.DataFrame.Drop | src/mlProject/components/data_transformation.py:28 | a fresh frame holding the frame without that column, the receiver unchanged |
| Frames.DataFrame.Reindex | src/mlProject/pipeline/prediction.py:55 | a fresh frame holding the reindexed frame |
| OneHot.IndicatorColumn | src/mlProject/components/data_transformation.py:41-42 | an indicator cell is 1 iff the source cell is the category, else 0; an unseen value gets 0 |
| OneHot.IndicatorNames | src/mlProject/components/data_transformation.py:43 | every indicator name of every source column's block is among the encoder's names |
| OneHot.IndicatorNamesComeFromBlocks | src/mlProject/components/data_transformation.py:43 | conversely, every encoder name is the name of an indicator in some source column's block |
| OneHot.EncodeBlock | src/mlProject/components/data_transformation.py:42-43 | one source column's block: named in the encoder's order, each column the indicator of its category |
| OneHot.Encode | src/mlProject/components/data_transformation.py:42-43 | the encoded frame is named by the encoder's names in source-column order, and each indicator column is the indicator of its category over its source column |
| OneHot.EncodeAgrees | src/mlProject/components/data_transformation.py:36-42 | frames that agree on the source columns encode identically |
| OneHot.ExactlyOneHot | src/mlProject/components/data_transformation.py:41-43 | an encoder fit on the cells it encodes puts exactly one 1 in each row of a block |
| Prediction.ColumnListsSplitInput | src/mlProject/pipeline/prediction.py:15-32 | the categorical and numeric lists are disjoint, duplicate-free and together exactly the 19 input fields; `TotalCharges` is the last field |
| Prediction.InferDType | src/mlProject/pipeline/prediction.py:21 | a column built from values is object iff some value is text, and float otherwise |
| Prediction.WrapRecord | src/mlProject/pipeline/prediction.py:21 | a record of 19 fields becomes a one-row frame under the fixed names, field i in column i; any other width is an error |
| Prediction.InputFrame | src/mlProject/pipeline/prediction.py:21-24 | `TotalCharges` is the coerced last field and numeric, every other column is the record's own field |
| Prediction.Engineered | src/mlProject/pipeline/prediction.py:34-45 | the row is the numeric fields, scaled as float, followed by each categorical field's indicator block |
| Prediction.PadOne | src/mlProject/pipeline/prediction.py:51-52 | a present feature leaves the frame as it is; an absent one is appended last as zeros |
| Prediction.Padded | src/mlProject/pipeline/prediction.py:50-52 | the frame after the loop has visited a prefix of the features; its properties are those of PaddingOnlyAppends and NothingToPad |
| Prediction.PaddingOnlyAppends | src/mlProject/pipeline/prediction.py:50-52 | padding keeps the old columns in place with their cells and adds each absent feature as zeros, and nothing else |
| Prediction.NothingToPad | src/mlProject/pipeline/prediction.py:50-52 | when every feature is present, padding changes nothing |
| Prediction.ReindexAfterPaddingIsReindex | src/mlProject/pipeline/prediction.py:50-55 | reindexing after the padding loop gives the same frame as reindexing without it |
| Prediction.Reconcile | src/mlProject/pipeline/prediction.py:48-58 | with feature names the columns are exactly those names in order, engineered ones unchanged, others zero, extras gone; without them the row passes through unchanged |
| Prediction.ChurnLabel | src/mlProject/pipeline/prediction.py:62 | the verdict is "Will Churn" iff the prediction is 1, otherwise "Will Not Churn"; no other string |
| Prediction.ServedRow | src/mlProject/pipeline/prediction.py:21-58 | the one-row frame the model sees: exactly the model's feature names in order when it has them, otherwise the numeric fields then the indicator names |
| Prediction.EngineerRow | src/mlProject/pipeline/prediction.py:34-45 | the in-place encode-concatenate-scale gives the engineered row |
| Prediction.PadMissingFeatures | src/mlProject/pipeline/prediction.py:50-52 | the loop leaves the frame equal to the padded frame |
| Prediction.Predict | src/mlProject/pipeline/prediction.py:13-62 | fails exactly on a record that is not 19 fields wide; otherwise returns the label of the model's output on the reconciled row |
| Transformation.DropIdentifier | src/mlProject/components/data_transformation.py:18-19 | `customerID` is gone, absence is not an error, every other column keeps its cells and its order |
| Transformation.CoerceTotalCharges | src/mlProject/components/data_transformation.py:22-24 | when present, `TotalCharges` becomes numeric with each cell coerced; no other column changes and the order stays |
| Transformation.Prepared | src/mlProject/components/data_transformation.py:18-24 | the loaded frame without `customerID`, with `TotalCharges` coerced and every other column unchanged |
| Transformation.EncodeTarget | src/mlProject/components/data_transformation.py:29 | same length; each label is 0 or 1, and 1 iff the value is exactly "Yes" |
| Transformation.CategoricalColumns | src/mlProject/components/data_transformation.py:32 | exactly the object-tagged columns, in frame order, no duplicates |
| Transformation.NumericColumns | src/mlProject/components/data_transformation.py:33 | exactly the int64/float64-tagged columns, in frame order, no duplicates |
| Transformation.DTypeSplitDisjoint | src/mlProject/components/data_transformation.py:32-33 | no column is in both lists, and a column of any other dtype is in neither |
| Transformation.FeatureColumns | src/mlProject/components/data_transformation.py:28 | the features no longer contain the target |
| Transformation.Imputed | src/mlProject/components/data_transformation.py:36-37 | the numeric columns are imputed keeping their dtype, the others unchanged |
| Transformation.Scaled | src/mlProject/components/data_transformation.py:49-51 | the numeric columns are scaled and become float64, the others unchanged |
| Transformation.Layout | src/mlProject/components/data_transformation.py:40-46 | with categorical columns, the numeric columns followed by the indicators; without them the frame itself |
| Transformation.ImputeKeepsListsFit | src/mlProject/components/data_transformation.py:36-42 | imputing first does not change what the encoder produces |
| Transformation.FeaturesLayout | src/mlProject/components/data_transformation.py:36-51 | the features are the numeric columns (imputed then scaled) followed by the indicator columns of the original categorical cells, or the frame's own order without categorical columns |
| Transformation.Features | src/mlProject/components/data_transformation.py:36-51 | the imputed, laid-out and scaled frame keeps the row count and holds only frame columns and indicator columns |
| Transformation.FeatureMatrixLayout | src/mlProject/components/data_transformation.py:40-46 | on the stage's own lists, the feature names are the numeric columns then the indicators, and columns of other dtypes are dropped |
| Transformation.FeatureMatrix | src/mlProject/components/data_transformation.py:28-51 | the feature matrix keeps the row count and never contains the target |
| Transformation.OneHotInFrame | src/mlProject/components/data_transformation.py:41-43 | a block whose indicator columns sit in a frame has exactly one 1 per row there |
| Transformation.OneHotPerRow | src/mlProject/components/data_transformation.py:41-43 | with encoders fit on the cells they encode, every row of the features has exactly one 1 in each categorical column's block |
| Transformation.TargetColumn | src/mlProject/components/data_transformation.py:60-61 | the saved target column holds the 0/1 labels as int64 |
| Transformation.Labelled | src/mlProject/components/data_transformation.py:60-61 | the target is appended after the feature columns |
| Transformation.Partition | src/mlProject/components/data_transformation.py:54-61 | a partition has the feature columns then the target, and its rows are the labelled rows at its positions |
| Transformation.PartitionInBounds | src/mlProject/components/data_transformation.py:54 | positions from a split of all rows are valid row indices |
| Transformation.PartitionLabels | src/mlProject/components/data_transformation.py:60-61 | the target is a partition's last column and holds the label of each row it took |
| Transformation.PartitionLabelAt | src/mlProject/components/data_transformation.py:29 | row k of a partition is labelled 1 iff the target value of the row it took is "Yes" |
| Transformation.PartitionsCover | src/mlProject/components/data_transformation.py:54-61 | the partition sizes add up and their rows together are the labelled rows rearranged |
| Transformation.Transform | src/mlProject/components/data_transformation.py:13-61 | the stage fails (with the missing target) iff the target is absent after the identifier drop; otherwise both partitions have the same columns and their sizes are those of the split and add up to the dataset's |
| Transformation.FailsOnlyWithoutTarget | src/mlProject/components/data_transformation.py:27-28 | the stage fails, with the missing target, exactly when the target is absent after the identifier drop |
| Transformation.TransformOk | src/mlProject/components/data_transformation.py:28-61 | a successful run returns the two partitions of the feature matrix and the encoded target |
| Transformation.TargetIsLastColumn | src/mlProject/components/data_transformation.py:60-61 | both partitions have the same columns, the target last and nowhere else |
| Transformation.TrainLabelsAreEncodedTarget | src/mlProject/components/data_transformation.py:29 | each training label is 1 iff the target value of the row it took was "Yes", else 0 |
| Transformation.RowsArePartitioned | src/mlProject/components/data_transformation.py:54-61 | train and test sizes add up to the dataset's, and their rows together are the labelled rows, each once |
| Transformation.PrepareInPlace | src/mlProject/components/data_transformation.py:18-24 | the in-place drop and coercion leave the prepared frame |
| Transformation.BuildFeatures | src/mlProject/components/data_transformation.py:36-51 | the in-place impute, layout and scale give the feature frame |
| Transformation.InitiateDataTransformation | src/mlProject/components/data_transformation.py:13-61 | the step-by-step stage returns exactly what `Transform` specifies |

## Left out

- File I/O is not modelled. This covers reading the CSVs, `os.makedirs`, writing the partitions and the status file, and loading the model. Inputs arrive as values; the status text and the partitions are returned.
- Logging is not modelled. This includes the NaN-count warnings at src/mlProject/components/data_transformation.py:72-75, which change no data.
- Data ingestion, model training, model evaluation and the web front end (`app.py`) are not part of this model. They are I/O or calls into the libraries.
- The median imputer and `StandardScaler` are floating-point numerics. Each is an opaque per-column map that keeps the column length (`Frames.ColumnMap`).
- Which categories the one-hot encoder learns, their order and `get_feature_names_out`'s spelling are the library's (`OneHot.Fit`). Their distinctness, and their freshness against the numeric columns and the target, are preconditions. pandas would allow duplicate column names there.
- `train_test_split` is given as two lists of row positions that together rearrange all rows. Stratification, the 0.2 ratio, the seed and the library's own errors (too few rows, a single class) are not modelled.
- The scaler, the imputer and the model never fail here, so Prediction.Predict returns a label for every 19-field record. In the source, `scaler.fit_transform` at src/mlProject/pipeline/prediction.py:45 raises on a non-numeric field such as a `tenure` of "abc", and the web front end catches that. Numbers are modelled as reals: a float NaN is a missing cell, and infinities have no counterpart.
- The model is opaque. It is a function from the served frame to an integer, and `Prediction.Predict` reads only that integer (`prediction[0]`).
- Prediction.Predict takes one record, which is what the web front end passes. A batch of several rows is not modelled.
- Prediction.WrapRecord gives each field's dtype through a simple inference: text gives object, otherwise float. pandas' inference for numpy string arrays and mixed lists is not reproduced. The serving path reads no dtype other than `TotalCharges`', which is numeric after coercion.
- Frames.ToNumeric keeps an int64 column int64 and makes every other column float64. pandas would give int64 for an object column whose strings all parse as integers.
- The `else` branch at src/mlProject/pipeline/prediction.py:40-41 is not modelled: the categorical list is a non-empty constant, so the branch cannot run. Prediction.Engineered always encodes.
- The bare `except` at src/mlProject/pipeline/prediction.py:56-58 is modelled only for its intended cause: a model without `feature_names_in_` (`featureNames == None`). Other exceptions inside the `try` are not modelled.
- Frames are assumed to have distinct column names (`Frames.WellFormed`). pandas allows repeated names.
- Prediction.Predict requires what `ServingPre` states: fresh indicator names and distinct model feature names. Transformation.InitiateDataTransformation requires what `TransformPre` states: a valid row partition and fresh indicator names.
