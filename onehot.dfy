/** One-hot encoding of categorical columns (`OneHotEncoder(handle_unknown=
    "ignore")` followed by `get_feature_names_out`). Which categories the
    encoder learns, their order and the spelling of the indicator names are
    the library's: they come in as a `Fit`. What is modelled is how the
    indicator columns are laid out and filled. */
module OneHot {
  import opened Seqs
  import opened Frames

  /** One output column of a fitted encoder: the category it marks and the
      name the encoder gives that column. */
  datatype Indicator = Indicator(category: Cell, name: string)

  /** The encoder fit on one source column: from the column's name and cells,
      its indicators in the library's order. */
  type Fit = (string, seq<Cell>) -> seq<Indicator>

  function Categories(block: seq<Indicator>): (cs: seq<Cell>)
    ensures |cs| == |block| && forall j :: 0 <= j < |block| ==> cs[j] == block[j].category
  {
    seq(|block|, j requires 0 <= j < |block| => block[j].category)
  }

  function BlockNames(block: seq<Indicator>): (ns: seq<string>)
    ensures |ns| == |block| && forall j :: 0 <= j < |block| ==> ns[j] == block[j].name
  {
    seq(|block|, j requires 0 <= j < |block| => block[j].name)
  }

  /** What fitting on these very cells gives: each category once, and every
      cell among the categories. */
  predicate FitsCells(block: seq<Indicator>, cells: seq<Cell>) {
    Distinct(Categories(block)) && forall r :: 0 <= r < |cells| ==> cells[r] in Categories(block)
  }

  /** The transform of one source column for one category: 1 where the cell
      is that category and 0 elsewhere (an unseen value gets all zeros). */
  function IndicatorColumn(cells: seq<Cell>, category: Cell): (col: Column)
    ensures col.dtype == Float64 && |col.cells| == |cells|
    ensures forall r :: 0 <= r < |cells| ==> (col.cells[r] == Num(1.0) <==> cells[r] == category)
    ensures forall r :: 0 <= r < |cells| ==> col.cells[r] == Num(1.0) || col.cells[r] == Num(0.0)
  {
    Column(Float64, seq(|cells|, r requires 0 <= r < |cells| => if cells[r] == category then Num(1.0) else Num(0.0)))
  }

  /** The indicators the encoder learns for source column `c` of `f`. */
  function Block(f: Frame, c: string, fit: Fit): seq<Indicator>
    requires c in f.cols
  {
    fit(c, f.cols[c].cells)
  }

  predicate AllIn(f: Frame, sources: seq<string>) {
    forall c :: c in sources ==> c in f.cols
  }

  /** The names `get_feature_names_out` produces: each source column's block
      in turn. */
  function IndicatorNames(f: Frame, sources: seq<string>, fit: Fit): (ns: seq<string>)
    requires AllIn(f, sources)
    ensures forall i, j :: 0 <= i < |sources| && 0 <= j < |Block(f, sources[i], fit)| ==>
      Block(f, sources[i], fit)[j].name in ns
    decreases |sources|
  {
    if sources == [] then []
    else BlockNames(Block(f, sources[0], fit)) + IndicatorNames(f, sources[1..], fit)
  }

  /** Conversely, every encoder name belongs to the block of some source
      column. */
  lemma {:induction false} IndicatorNamesComeFromBlocks(f: Frame, sources: seq<string>, fit: Fit, n: string)
    requires AllIn(f, sources) && n in IndicatorNames(f, sources, fit)
    ensures exists i, j :: 0 <= i < |sources| && 0 <= j < |Block(f, sources[i], fit)| && Block(f, sources[i], fit)[j].name == n
    decreases |sources|
  {
    var head := BlockNames(Block(f, sources[0], fit));
    if n in head {
      var j :| 0 <= j < |head| && head[j] == n;
      assert Block(f, sources[0], fit)[j].name == n;
    } else {
      IndicatorNamesComeFromBlocks(f, sources[1..], fit, n);
      var i, j :| 0 <= i < |sources[1..]| && 0 <= j < |Block(f, sources[1..][i], fit)| && Block(f, sources[1..][i], fit)[j].name == n;
      assert sources[1..][i] == sources[i + 1];
    }
  }

  /** The indicator columns of one source column. */
  function EncodeBlock(f: Frame, c: string, fit: Fit): (r: Frame)
    requires WellFormed(f) && c in f.cols
    requires Distinct(BlockNames(Block(f, c, fit)))
    ensures WellFormed(r) && r.rows == f.rows && r.names == BlockNames(Block(f, c, fit))
    ensures forall j :: 0 <= j < |Block(f, c, fit)| ==>
      r.cols[Block(f, c, fit)[j].name] == IndicatorColumn(f.cols[c].cells, Block(f, c, fit)[j].category)
  {
    var block := Block(f, c, fit);
    var cells := f.cols[c].cells;
    FromColumns(BlockNames(block),
                seq(|block|, j requires 0 <= j < |block| => IndicatorColumn(cells, block[j].category)),
                f.rows)
  }

  /** `encoder.fit_transform(df[sources])` as a frame named by
      `get_feature_names_out`: the blocks of the source columns side by side,
      in source order, each column the indicator of its own category. */
  function Encode(f: Frame, sources: seq<string>, fit: Fit): (r: Frame)
    requires WellFormed(f) && AllIn(f, sources)
    requires Distinct(IndicatorNames(f, sources, fit))
    ensures WellFormed(r) && r.rows == f.rows && r.names == IndicatorNames(f, sources, fit)
    ensures forall i, j :: 0 <= i < |sources| && 0 <= j < |Block(f, sources[i], fit)| ==>
      Block(f, sources[i], fit)[j].name in r.cols
    ensures forall i, j :: 0 <= i < |sources| && 0 <= j < |Block(f, sources[i], fit)| ==>
      r.cols[Block(f, sources[i], fit)[j].name] == IndicatorColumn(f.cols[sources[i]].cells, Block(f, sources[i], fit)[j].category)
    decreases |sources|, 1
  {
    if sources == [] then Frame([], map[], f.rows)
    else
      var head := BlockNames(Block(f, sources[0], fit));
      DistinctParts(head, IndicatorNames(f, sources[1..], fit));
      var first := EncodeBlock(f, sources[0], fit);
      var rest := Encode(f, sources[1..], fit);
      BlocksOfRest(f, sources, fit);
      Concat(first, rest)
  }

  /** The blocks of the remaining source columns, re-indexed. */
  lemma BlocksOfRest(f: Frame, sources: seq<string>, fit: Fit)
    requires WellFormed(f) && AllIn(f, sources) && sources != []
    requires Distinct(IndicatorNames(f, sources[1..], fit))
    ensures forall i, j :: 1 <= i < |sources| && 0 <= j < |Block(f, sources[i], fit)| ==>
      Block(f, sources[i], fit)[j].name in Encode(f, sources[1..], fit).cols &&
      Encode(f, sources[1..], fit).cols[Block(f, sources[i], fit)[j].name]
        == IndicatorColumn(f.cols[sources[i]].cells, Block(f, sources[i], fit)[j].category)
    decreases |sources|, 0
  {
    var rest := Encode(f, sources[1..], fit);
    forall i, j | 1 <= i < |sources| && 0 <= j < |Block(f, sources[i], fit)|
      ensures Block(f, sources[i], fit)[j].name in rest.cols
      ensures rest.cols[Block(f, sources[i], fit)[j].name] == IndicatorColumn(f.cols[sources[i]].cells, Block(f, sources[i], fit)[j].category)
    {
      assert sources[i] == sources[1..][i - 1];
    }
  }

  /** Encoding the same source columns of two frames that agree on them gives
      the same names and the same indicator columns. */
  lemma {:induction false} EncodeAgrees(f: Frame, g: Frame, sources: seq<string>, fit: Fit)
    requires WellFormed(f) && WellFormed(g) && f.rows == g.rows
    requires AllIn(f, sources) && AllIn(g, sources)
    requires forall c :: c in sources ==> f.cols[c] == g.cols[c]
    ensures IndicatorNames(f, sources, fit) == IndicatorNames(g, sources, fit)
    ensures Distinct(IndicatorNames(f, sources, fit)) ==> Encode(f, sources, fit) == Encode(g, sources, fit)
    decreases |sources|
  {
    if sources != [] {
      EncodeAgrees(f, g, sources[1..], fit);
      if Distinct(IndicatorNames(f, sources, fit)) {
        DistinctParts(BlockNames(Block(f, sources[0], fit)), IndicatorNames(f, sources[1..], fit));
        assert EncodeBlock(f, sources[0], fit) == EncodeBlock(g, sources[0], fit);
      }
    }
  }

  /** A block fit on the very cells it encodes has, in every row, exactly one
      indicator equal to 1. */
  lemma ExactlyOneHot(block: seq<Indicator>, cells: seq<Cell>, r: nat)
    requires FitsCells(block, cells) && r < |cells|
    ensures |set j | 0 <= j < |block| && IndicatorColumn(cells, block[j].category).cells[r] == Num(1.0)| == 1
  {
    var cats := Categories(block);
    assert cells[r] in cats;
    var j0 :| 0 <= j0 < |cats| && cats[j0] == cells[r];
    var ones := set j | 0 <= j < |block| && IndicatorColumn(cells, block[j].category).cells[r] == Num(1.0);
    assert ones == {j0} by {
      forall j | j in ones ensures j == j0 {
        assert cats[j] == cells[r] == cats[j0];
      }
    }
  }
}
