/** A pandas data frame as a value: an ordered sequence of column names and a
    map from each name to its column (a dtype tag and the cells, one per row).
    The functions here are the pandas operations the pipeline calls; the
    DataFrame class holds one frame that the pipeline changes in place. */
module Frames {
  import opened Seqs

  /** A cell: a string, a number, or pandas' missing value (NaN). */
  datatype Cell = Text(text: string) | Num(value: real) | Missing

  /** The dtype tag pandas keeps per column; `OtherDType` stands for every
      dtype that is neither `object` nor `int64`/`float64` (bool, datetime, ...). */
  datatype DType = Object | Int64 | Float64 | OtherDType(name: string)

  datatype Column = Column(dtype: DType, cells: seq<Cell>)

  datatype Frame = Frame(names: seq<string>, cols: map<string, Column>, rows: nat)

  /** Column names are unique, name exactly the map's keys, and every column
      has one cell per row. */
  predicate WellFormed(f: Frame) {
    && Distinct(f.names)
    && (forall c :: c in f.cols ==> c in f.names)
    && (forall c :: c in f.names ==> c in f.cols)
    && (forall c :: c in f.cols ==> |f.cols[c].cells| == f.rows)
  }

  predicate IsNumeric(d: DType) {
    d == Int64 || d == Float64
  }

  /** The column both pipeline paths coerce to a number. */
  const TotalCharges: string := "TotalCharges"

  /** The string-to-number parser pandas uses; its grammar is the library's. */
  type Parser = string -> Option<real>

  /** A column-wise numeric transformation fit on the column itself
      (`StandardScaler`, median `fillna`): one output cell per input cell. */
  type ColumnMap = fn: seq<Cell> -> seq<Cell> | forall s :: |fn(s)| == |s|
    witness (s: seq<Cell>) => s

  /** The dtype a column keeps under `fillna`, and the one a scaler's output
      gets. */
  function KeepDType(d: DType): DType { d }

  function ToFloat64(d: DType): DType { Float64 }

  predicate Blank(s: string) {
    forall i :: 0 <= i < |s| ==> s[i] in " \t\n\r"
  }

  /** `pd.to_numeric(x, errors='coerce')` followed by `.fillna(0)` on one
      cell: numbers stay, a parsable string becomes its value, and a blank or
      unparsable string or a missing value becomes 0. */
  function CoerceCell(c: Cell, parse: Parser): (r: Cell)
    ensures r.Num?
    ensures c.Num? ==> r == c
    ensures c.Missing? ==> r == Num(0.0)
    ensures c.Text? && (Blank(c.text) || parse(c.text).None?) ==> r == Num(0.0)
    ensures c.Text? && !Blank(c.text) && parse(c.text).Some? ==> r == Num(parse(c.text).value)
  {
    match c
    case Num(_) => c
    case Missing => Num(0.0)
    case Text(s) =>
      if Blank(s) then Num(0.0)
      else match parse(s)
        case Some(x) => Num(x)
        case None => Num(0.0)
  }

  /** The coercion on a whole column: every cell becomes a number and the
      column gets a numeric dtype. */
  function ToNumeric(col: Column, parse: Parser): (r: Column)
    ensures IsNumeric(r.dtype)
    ensures |r.cells| == |col.cells|
    ensures forall i :: 0 <= i < |r.cells| ==> r.cells[i].Num? && r.cells[i] == CoerceCell(col.cells[i], parse)
  {
    Column(if col.dtype == Int64 then Int64 else Float64,
           seq(|col.cells|, i requires 0 <= i < |col.cells| => CoerceCell(col.cells[i], parse)))
  }

  /** Coercing an already coerced column changes nothing. */
  lemma ToNumericIdempotent(col: Column, parse: Parser)
    ensures ToNumeric(ToNumeric(col, parse), parse) == ToNumeric(col, parse)
  {
  }

  /** The column pandas creates for `df[c] = 0` or a `reindex(fill_value=0)`. */
  function ZeroColumn(n: nat): (col: Column)
    ensures col.dtype == Int64 && |col.cells| == n
    ensures forall r :: 0 <= r < n ==> col.cells[r] == Num(0.0)
  {
    Column(Int64, seq(n, _ => Num(0.0)))
  }

  /** A frame built from names and columns given side by side. */
  function FromColumns(names: seq<string>, cols: seq<Column>, rows: nat): (r: Frame)
    requires Distinct(names) && |names| == |cols|
    requires forall i :: 0 <= i < |cols| ==> |cols[i].cells| == rows
    ensures WellFormed(r) && r.names == names && r.rows == rows
    ensures forall i :: 0 <= i < |names| ==> r.cols[names[i]] == cols[i]
  {
    Frame(names, map i | 0 <= i < |names| :: names[i] := cols[i], rows)
  }

  /** `df[c] = col`: an existing column is replaced where it stands, a new one
      is appended after the others. */
  function Assign(f: Frame, c: string, col: Column): (r: Frame)
    requires WellFormed(f) && |col.cells| == f.rows
    ensures WellFormed(r) && r.rows == f.rows
    ensures c in f.cols ==> r.names == f.names
    ensures c !in f.cols ==> r.names == f.names + [c]
    ensures r.cols == f.cols[c := col]
  {
    if c in f.cols then Frame(f.names, f.cols[c := col], f.rows)
    else
      DistinctConcat(f.names, [c]);
      Frame(f.names + [c], f.cols[c := col], f.rows)
  }

  /** `df.drop(columns=[c])`: exactly that column goes, the others keep their
      order and their cells. */
  function DropColumn(f: Frame, c: string): (r: Frame)
    requires WellFormed(f) && c in f.cols
    ensures WellFormed(r) && r.rows == f.rows
    ensures forall n :: n in r.cols <==> n in f.cols && n != c
    ensures forall n :: n in r.cols ==> r.cols[n] == f.cols[n]
    ensures forall i :: 0 <= i < |f.names| && f.names[i] == c ==> r.names == f.names[..i] + f.names[i+1..]
  {
    RemoveDistinct(f.names, c);
    assert forall i :: 0 <= i < |f.names| && f.names[i] == c ==> Remove(f.names, c) == f.names[..i] + f.names[i+1..] by {
      forall i | 0 <= i < |f.names| && f.names[i] == c {
        RemoveAt(f.names, i);
      }
    }
    Frame(Remove(f.names, c), f.cols - {c}, f.rows)
  }

  /** `df[names]`: the named columns, in the order asked for. */
  function SelectColumns(f: Frame, names: seq<string>): (r: Frame)
    requires WellFormed(f) && Distinct(names)
    requires forall c :: c in names ==> c in f.cols
    ensures WellFormed(r) && r.names == names && r.rows == f.rows
    ensures forall c :: c in names ==> r.cols[c] == f.cols[c]
  {
    Frame(names, map c | c in names :: f.cols[c], f.rows)
  }

  /** `pd.concat([f, g], axis=1)` of frames with the same rows and no shared
      column name: the columns of `f`, then those of `g`. */
  function Concat(f: Frame, g: Frame): (r: Frame)
    requires WellFormed(f) && WellFormed(g) && f.rows == g.rows
    requires forall c :: c in f.cols ==> c !in g.cols
    ensures WellFormed(r) && r.names == f.names + g.names && r.rows == f.rows
    ensures forall c :: c in f.cols ==> r.cols[c] == f.cols[c]
    ensures forall c :: c in g.cols ==> r.cols[c] == g.cols[c]
    ensures forall c :: c in r.cols <==> c in f.cols || c in g.cols
  {
    DistinctConcat(f.names, g.names);
    Frame(f.names + g.names, f.cols + g.cols, f.rows)
  }

  /** `df[targets] = fn(df[targets])`: each named column gets `fn` of its
      cells and the dtype `retype` gives it; every other column is untouched. */
  function UpdateColumns(f: Frame, targets: seq<string>, fn: ColumnMap, retype: DType -> DType): (r: Frame)
    requires WellFormed(f)
    requires forall c :: c in targets ==> c in f.cols
    ensures WellFormed(r) && r.names == f.names && r.rows == f.rows
    ensures forall c :: c in f.cols && c !in targets ==> r.cols[c] == f.cols[c]
    ensures forall c :: c in targets ==> r.cols[c] == Column(retype(f.cols[c].dtype), fn(f.cols[c].cells))
  {
    Frame(f.names,
          map c | c in f.cols :: if c in targets then Column(retype(f.cols[c].dtype), fn(f.cols[c].cells)) else f.cols[c],
          f.rows)
  }

  /** `df.reindex(columns=features, fill_value=0)`: exactly the listed
      columns, in the listed order; a listed column the frame lacks is filled
      with zeros and any column not listed is gone. */
  function Reindexed(f: Frame, features: seq<string>): (r: Frame)
    requires WellFormed(f) && Distinct(features)
    ensures WellFormed(r) && r.names == features && r.rows == f.rows
    ensures forall c :: c in features ==> r.cols[c] == if c in f.cols then f.cols[c] else ZeroColumn(f.rows)
    ensures forall c :: c in f.cols && c !in features ==> c !in r.cols
  {
    Frame(features, map c | c in features :: if c in f.cols then f.cols[c] else ZeroColumn(f.rows), f.rows)
  }

  /** Row `r` of a frame, in column order. */
  function Row(f: Frame, r: nat): (row: seq<Cell>)
    requires WellFormed(f) && r < f.rows
    ensures |row| == |f.names| && forall j :: 0 <= j < |f.names| ==> row[j] == f.cols[f.names[j]].cells[r]
  {
    seq(|f.names|, j requires 0 <= j < |f.names| => f.cols[f.names[j]].cells[r])
  }

  function Rows(f: Frame): (rs: seq<seq<Cell>>)
    requires WellFormed(f)
    ensures |rs| == f.rows && forall r :: 0 <= r < f.rows ==> rs[r] == Row(f, r)
  {
    seq(f.rows, r requires 0 <= r < f.rows => Row(f, r))
  }

  /** The rows at positions `idx`, in the order of `idx`, with the same
      columns (`df.iloc[idx]` followed by `reset_index(drop=True)`). */
  function TakeRows(f: Frame, idx: seq<nat>): (r: Frame)
    requires WellFormed(f) && InBounds(idx, f.rows)
    ensures WellFormed(r) && r.names == f.names && r.rows == |idx|
    ensures forall c :: c in f.cols ==> r.cols[c] == Column(f.cols[c].dtype, Select(f.cols[c].cells, idx))
    ensures Rows(r) == Select(Rows(f), idx)
  {
    var r := Frame(f.names, map c | c in f.cols :: Column(f.cols[c].dtype, Select(f.cols[c].cells, idx)), |idx|);
    assert forall k :: 0 <= k < |idx| ==> Row(r, k) == Row(f, idx[k]);
    r
  }

  /** A data frame the pipeline changes in place. */
  class DataFrame {
    var names: seq<string>
    var cols: map<string, Column>
    var rows: nat

    function Value(): Frame
      reads this
    {
      Frame(names, cols, rows)
    }

    ghost predicate Valid()
      reads this
    {
      WellFormed(Value())
    }

    constructor (f: Frame)
      requires WellFormed(f)
      ensures Valid() && Value() == f
    {
      names, cols, rows := f.names, f.cols, f.rows;
    }

    /** `df.drop(columns=[c], inplace=True)` */
    method DropInPlace(c: string)
      requires Valid() && c in cols
      modifies this
      ensures Valid() && Value() == DropColumn(old(Value()), c)
    {
      var r := DropColumn(Value(), c);
      names, cols, rows := r.names, r.cols, r.rows;
    }

    /** `df[c] = col` */
    method SetColumn(c: string, col: Column)
      requires Valid() && |col.cells| == rows
      modifies this
      ensures Valid() && Value() == Assign(old(Value()), c, col)
    {
      if c !in cols {
        DistinctConcat(names, [c]);
        names := names + [c];
      }
      cols := cols[c := col];
    }

    /** `df[targets] = fn(df[targets])` */
    method UpdateInPlace(targets: seq<string>, fn: ColumnMap, retype: DType -> DType)
      requires Valid() && forall c :: c in targets ==> c in cols
      modifies this
      ensures Valid() && Value() == UpdateColumns(old(Value()), targets, fn, retype)
    {
      var r := UpdateColumns(Value(), targets, fn, retype);
      cols := r.cols;
    }

    /** `df.drop(columns=[c])`: a new frame; this one is unchanged. */
    method Drop(c: string) returns (g: DataFrame)
      requires Valid() && c in cols
      ensures fresh(g) && g.Valid() && g.Value() == DropColumn(Value(), c)
    {
      g := new DataFrame(DropColumn(Value(), c));
    }

    /** `df.reindex(columns=features, fill_value=0)`: a new frame. */
    method Reindex(features: seq<string>) returns (g: DataFrame)
      requires Valid() && Distinct(features)
      ensures fresh(g) && g.Valid() && g.Value() == Reindexed(Value(), features)
    {
      g := new DataFrame(Reindexed(Value(), features));
    }
  }
}
