/**
  The table algebra `combine_GRiPHins.py` uses to merge two GRiPHin summaries: cutting a
  table into sections at a named column, merging tables by their `UNI` key, filling in the
  CENTAR columns one table lacks, checking the tables are compatible, stacking rows,
  counting spreadsheet footer lines, and tallying the CENTAR column names.
 */
module CombineGriphins {
  import opened Wrappers
  import opened Frames

  /** The exceptions the functions raise. */
  datatype CombineError =
    | NoColumns                 // `df.columns[0]` on a table without columns
    | FirstColumnNotUni         // "The first column must be 'UNI'"
    | MissingColumn(name: string)
    | RepeatedColumn(name: string) // `get_loc` of a repeated name is no position, so `range` raises
    | CentarBoundsMissing       // 'Toxinotype' or 'AR_Database' missing in the reference
    | OldIsCdcPhoenix           // only the old summary has `BUSCO_Lineage`
    | NewIsCdcPhoenix           // only the new summary has `BUSCO_Lineage`
    | DuplicateColumns          // `reindex` on repeated column names
    | WrongSectionCount         // the CENTAR name lists are not four

  /** `xs[lo:hi]` for `lo <= hi`, and empty when the range is reversed. */
  function Span<T>(xs: seq<T>, lo: nat, hi: nat): (r: seq<T>)
    ensures lo <= hi <= |xs| ==> r == xs[lo..hi]
  {
    if lo <= hi <= |xs| then xs[lo..hi] else []
  }

  /** Each row's key, then its cells in positions `lo` to `hi`: `df.iloc[:, [0] + list(range(lo, hi))]`. */
  function Section(rows: seq<seq<Cell>>, lo: nat, hi: nat): (r: seq<seq<Cell>>)
    ensures |r| == |rows|
    ensures forall i :: 0 <= i < |r| ==> |r[i]| >= 1
  {
    if rows == [] then [] else [[Key(rows[0])] + Span(rows[0], lo, hi)] + Section(rows[1..], lo, hi)
  }

  lemma {:induction false} SectionAt(rows: seq<seq<Cell>>, lo: nat, hi: nat, i: nat)
    requires i < |rows|
    ensures Section(rows, lo, hi)[i] == [Key(rows[i])] + Span(rows[i], lo, hi)
  {
    if i > 0 {
      SectionAt(rows[1..], lo, hi, i - 1);
    }
  }

  /**
    `split_dataframe`: the `UNI` column with the columns before `split`, and the `UNI` column
    with `split` and the columns after it.
   */
  function SplitDataframe(f: Frame, split: string): Result<(Frame, Frame), CombineError> {
    if |f.columns| == 0 then Failure(NoColumns)
    else if f.columns[0] != Uni then Failure(FirstColumnNotUni)
    else if split !in f.columns then Failure(MissingColumn(split))
    else
      var k := Find(f.columns, split);
      var n := |f.columns|;
      if split in f.columns[k + 1..] then Failure(RepeatedColumn(split))
      else Success((Frame([Uni] + Span(f.columns, 1, k), Section(f.rows, 1, k)),
               Frame([Uni] + Span(f.columns, k, n), Section(f.rows, k, n))))
  }

  /** The split succeeds exactly when the table starts with `UNI` and names `split` exactly once. */
  lemma SplitDataframeFails(f: Frame, split: string)
    ensures SplitDataframe(f, split).Success? <==>
      (&& |f.columns| > 0 && f.columns[0] == Uni && split in f.columns
       && forall a, b :: 0 <= a < b < |f.columns| && f.columns[a] == split ==> f.columns[b] != split)
  {
    var cols := f.columns;
    if |cols| > 0 && cols[0] == Uni && split in cols {
      var k := Find(cols, split);
      if split in cols[k + 1..] {
        var t :| 0 <= t < |cols[k + 1..]| && cols[k + 1..][t] == split;
        assert cols[k] == split && cols[k + 1 + t] == split;
      } else {
        forall a, b | 0 <= a < b < |cols| && cols[a] == split ensures cols[b] != split {
          if a < k {
            FindFirst(cols, split, a);
          }
          assert cols[b] == cols[k + 1..][b - k - 1];
        }
      }
    }
  }

  /** Both halves of a split keep every row, stay rectangular and start with `UNI`. */
  lemma SplitDataframeShape(f: Frame, split: string)
    requires Rect(f) && SplitDataframe(f, split).Success?
    ensures var halves := SplitDataframe(f, split).value;
      && Rect(halves.0) && Rect(halves.1)
      && |halves.0.rows| == |f.rows| == |halves.1.rows|
      && halves.0.columns[0] == Uni && halves.1.columns[0] == Uni
  {
    var halves := SplitDataframe(f, split).value;
    var k := Find(f.columns, split);
    var n := |f.columns|;
    forall i | 0 <= i < |f.rows| ensures |halves.0.rows[i]| == |halves.0.columns| && |halves.1.rows[i]| == |halves.1.columns| {
      SectionAt(f.rows, 1, k, i);
      SectionAt(f.rows, k, n, i);
    }
  }

  /** A row cut at position `k` and joined again without the repeated key. */
  lemma SplitRowRebuilds(row: seq<Cell>, k: nat)
    requires 1 <= k <= |row|
    ensures ([Key(row)] + Span(row, 1, k)) + ([Key(row)] + Span(row, k, |row|))[1..] == row
  {
    assert row == [row[0]] + row[1..k] + row[k..];
  }

  /**
    For a split column other than `UNI`, the second half starts at `split`, and the first
    half's columns followed by the second half's columns without the repeated key give back
    the table's columns.
   */
  lemma SplitDataframeColumns(f: Frame, split: string)
    requires SplitDataframe(f, split).Success? && split != Uni
    ensures var halves := SplitDataframe(f, split).value;
      halves.0.columns + halves.1.columns[1..] == f.columns && halves.1.columns[1] == split
  {
    var k := Find(f.columns, split);
    assert f.columns == [f.columns[0]] + f.columns[1..k] + f.columns[k..];
  }

  /** The split column is the first of its name: the first half does not contain it. */
  lemma SplitDataframeFirstHalf(f: Frame, split: string)
    requires SplitDataframe(f, split).Success?
    ensures split !in SplitDataframe(f, split).value.0.columns[1..]
  {
    var cols := SplitDataframe(f, split).value.0.columns;
    var k := Find(f.columns, split);
    forall t | 1 <= t < |cols| ensures cols[t] != split {
      FindFirst(f.columns, split, t);
    }
  }

  /** A split column other than `UNI` stands once in the second half, right after `UNI`, and nowhere in the first half. */
  lemma SplitDataframeOnce(f: Frame, split: string)
    requires SplitDataframe(f, split).Success? && split != Uni
    ensures var halves := SplitDataframe(f, split).value;
      && split !in halves.0.columns
      && halves.1.columns[1] == split && split !in halves.1.columns[2..]
  {
    var halves := SplitDataframe(f, split).value;
    var k := Find(f.columns, split);
    SplitDataframeFirstHalf(f, split);
    assert halves.0.columns == [Uni] + halves.0.columns[1..];
    assert halves.1.columns[2..] == f.columns[k + 1..];
  }

  /** For a split column other than `UNI`, each row of the first half followed by the same row of the second half without its key is the original row. */
  lemma SplitDataframeRows(f: Frame, split: string, i: nat)
    requires Rect(f) && SplitDataframe(f, split).Success? && split != Uni && i < |f.rows|
    ensures var halves := SplitDataframe(f, split).value;
      halves.0.rows[i] + halves.1.rows[i][1..] == f.rows[i]
  {
    var k := Find(f.columns, split);
    var n := |f.columns|;
    SectionAt(f.rows, 1, k, i);
    SectionAt(f.rows, k, n, i);
    SplitRowRebuilds(f.rows[i], k);
  }

  /** The error raised when a table does not start with its `UNI` column. */
  function UniError(f: Frame): Option<CombineError> {
    if |f.columns| == 0 then Some(NoColumns)
    else if f.columns[0] != Uni then Some(FirstColumnNotUni)
    else None
  }

  /** `x` when it is present, otherwise `y`: how a missing cell is filled. */
  function Prefer(x: Cell, y: Cell): Cell {
    if x.Some? then x else y
  }

  /** `df[~df.index.isin(keys)]`: the rows whose key is not among `keys`, in order. */
  function RowsNotIn(rows: seq<seq<Cell>>, keys: seq<Cell>): (r: seq<seq<Cell>>)
    ensures |r| <= |rows|
  {
    if rows == [] then []
    else if Key(rows[0]) in keys then RowsNotIn(rows[1..], keys)
    else [rows[0]] + RowsNotIn(rows[1..], keys)
  }

  /** A key survives the filter exactly when the rows have it and `keys` does not. */
  lemma {:induction false} RowsNotInKeys(rows: seq<seq<Cell>>, keys: seq<Cell>, k: Cell)
    ensures k in Keys(RowsNotIn(rows, keys)) <==> k in Keys(rows) && k !in keys
  {
    if rows != [] {
      RowsNotInKeys(rows[1..], keys, k);
      assert Keys(rows) == [Key(rows[0])] + Keys(rows[1..]);
      if Key(rows[0]) !in keys {
        assert Keys(RowsNotIn(rows, keys)) == [Key(rows[0])] + Keys(RowsNotIn(rows[1..], keys));
      }
    }
  }

  /** Looking up a key that `keys` lacks finds the same row before and after the filter. */
  lemma {:induction false} RowsNotInRowOf(rows: seq<seq<Cell>>, keys: seq<Cell>, k: Cell)
    requires k !in keys
    ensures RowOf(RowsNotIn(rows, keys), k) == RowOf(rows, k)
  {
    if rows != [] {
      RowsNotInRowOf(rows[1..], keys, k);
      RowOfCons(rows, k);
      if Key(rows[0]) !in keys {
        var r := RowsNotIn(rows, keys);
        assert r[1..] == RowsNotIn(rows[1..], keys);
        RowOfCons(r, k);
      }
    }
  }

  /** With keys that do not repeat, each row the filter keeps is the row its key finds. */
  lemma {:induction false} RowsNotInFirst(rows: seq<seq<Cell>>, keys: seq<Cell>, t: nat)
    requires DistinctKeys(rows) && t < |RowsNotIn(rows, keys)|
    ensures var x := RowsNotIn(rows, keys)[t]; Key(x) !in keys && RowOf(rows, Key(x)) == Some(x)
  {
    var x := RowsNotIn(rows, keys)[t];
    assert Keys(rows) == [Key(rows[0])] + Keys(rows[1..]);
    assert DistinctKeys(rows[1..]) by {
      assert Keys(rows[1..]) == Keys(rows)[1..];
    }
    RowOfCons(rows, Key(x));
    if Key(rows[0]) in keys {
      RowsNotInFirst(rows[1..], keys, t);
    } else if t > 0 {
      RowsNotInFirst(rows[1..], keys, t - 1);
      assert Key(x) in Keys(rows[1..]);
      assert Keys(rows[1..]) == Keys(rows)[1..];
    }
  }

  /** The cells of `row` under `names` after `combine_first`: its own present value, else `b`'s for the same key and name. */
  function FirstCells(row: seq<Cell>, columns: seq<string>, b: Frame, names: seq<string>): (r: seq<Cell>)
    ensures |r| == |names|
  {
    if names == [] then []
    else [Prefer(Lookup(row, columns, names[0]), Get(b, Key(row), names[0]))] + FirstCells(row, columns, b, names[1..])
  }

  lemma {:induction false} FirstCellsAt(row: seq<Cell>, columns: seq<string>, b: Frame, names: seq<string>, j: nat)
    requires j < |names|
    ensures FirstCells(row, columns, b, names)[j] == Prefer(Lookup(row, columns, names[j]), Get(b, Key(row), names[j]))
  {
    if j > 0 {
      FirstCellsAt(row, columns, b, names[1..], j - 1);
    }
  }

  /** Every row of the first table after `combine_first`: its key, then the filled cells. */
  function FirstRows(rows: seq<seq<Cell>>, columns: seq<string>, b: Frame, names: seq<string>): (r: seq<seq<Cell>>)
    ensures |r| == |rows|
    ensures forall i :: 0 <= i < |r| ==> |r[i]| == |names| + 1
  {
    if rows == [] then []
    else [[Key(rows[0])] + FirstCells(rows[0], columns, b, names)] + FirstRows(rows[1..], columns, b, names)
  }

  lemma {:induction false} FirstRowsAt(rows: seq<seq<Cell>>, columns: seq<string>, b: Frame, names: seq<string>, i: nat)
    requires i < |rows|
    ensures FirstRows(rows, columns, b, names)[i] == [Key(rows[i])] + FirstCells(rows[i], columns, b, names)
  {
    if i > 0 {
      FirstRowsAt(rows[1..], columns, b, names, i - 1);
    }
  }

  /**
    `a.combine_first(b)` on tables indexed by their first column: the columns of both, the
    rows of `a` with their missing cells filled from `b`, then the rows of `b` whose key `a`
    lacks.
   */
  function CombineFirst(a: Frame, b: Frame): (r: Frame)
    requires |a.columns| > 0
    ensures Rect(r)
  {
    var all := ColumnUnion(a.columns, b.columns);
    var extra := RowsNotIn(b.rows, Keys(a.rows));
    Frame(all, FirstRows(a.rows, a.columns, b, all[1..]) + ReindexRows(extra, b.columns, all))
  }

  /** Columns never back-filled from the new table. */
  const GeneSkip: seq<string> := ["AR_Database", "HV_Database", "Plasmid_Replicon_Database", "WGS_ID",
    "No_AR_Genes_Found", "No_HVGs_Found", "No_Plasmid_Markers", "UNI"]

  /**
    `combine_gene_dataframes(old_df, new_df)`: both tables must start with `UNI`; the result
    is `old_df.combine_first(new_df)` with its index back as the first column, and the keys
    of `new_df` that `old_df` lacks.
   */
  function CombineGene(oldDf: Frame, newDf: Frame): Result<(Frame, seq<Cell>), CombineError> {
    if UniError(newDf).Some? then Failure(UniError(newDf).value)
    else if UniError(oldDf).Some? then Failure(UniError(oldDf).value)
    else Success((CombineFirst(oldDf, newDf), Keys(RowsNotIn(newDf.rows, Keys(oldDf.rows)))))
  }

  /** `combined[c] = combined[c].fillna(other[c])`: a missing cell under `c` takes `other`'s value for the row's key. */
  function FillNa(f: Frame, c: string, other: Frame): Frame {
    Frame(f.columns, FillRows(f.rows, Find(f.columns, c), c, other))
  }

  function FillRow(row: seq<Cell>, j: nat, c: string, other: Frame): seq<Cell> {
    if j < |row| then row[j := Prefer(row[j], Get(other, Key(row), c))] else row
  }

  function FillRows(rows: seq<seq<Cell>>, j: nat, c: string, other: Frame): (r: seq<seq<Cell>>)
    ensures |r| == |rows|
  {
    if rows == [] then [] else [FillRow(rows[0], j, c, other)] + FillRows(rows[1..], j, c, other)
  }

  /** Filling changes nothing when no row would take a value. */
  lemma {:induction false} FillRowsSame(rows: seq<seq<Cell>>, j: nat, c: string, other: Frame)
    requires forall i :: 0 <= i < |rows| ==> FillRow(rows[i], j, c, other) == rows[i]
    ensures FillRows(rows, j, c, other) == rows
  {
    if rows != [] {
      FillRowsSame(rows[1..], j, c, other);
    }
  }

  /**
    The back-fill loop of `combine_gene_dataframes` changes nothing: `combine_first` has
    already filled every cell the new table can fill.
   */
  lemma FillNaUnchanged(a: Frame, b: Frame, c: string)
    requires UniError(a).None? && UniError(b).None? && DistinctKeys(b.rows) && c != Uni
    ensures FillNa(CombineFirst(a, b), c, b) == CombineFirst(a, b)
  {
    var r := CombineFirst(a, b);
    var j := Find(r.columns, c);
    forall i | 0 <= i < |r.rows| ensures FillRow(r.rows[i], j, c, b) == r.rows[i] {
      if i < |a.rows| {
        FillFirstRow(a, b, c, i);
      } else {
        FillMovedRow(a, b, c, i);
      }
    }
    FillRowsSame(r.rows, j, c, b);
  }

  /** A cell that already prefers its own value over `other`'s is left as it is by the back-fill. */
  lemma FillRowPreferred(row: seq<Cell>, j: nat, c: string, other: Frame, x: Cell)
    requires j < |row| ==> row[j] == Prefer(x, Get(other, Key(row), c))
    ensures FillRow(row, j, c, other) == row
  {
  }

  /** The back-fill leaves an old table's row of `combine_first`'s result as it is. */
  lemma FillFirstRow(a: Frame, b: Frame, c: string, i: nat)
    requires UniError(a).None? && c != Uni && i < |a.rows|
    ensures var r := CombineFirst(a, b); FillRow(r.rows[i], Find(r.columns, c), c, b) == r.rows[i]
  {
    var r := CombineFirst(a, b);
    var all := r.columns;
    var j := Find(all, c);
    var names := all[1..];
    var first := FirstRows(a.rows, a.columns, b, names);
    assert r.rows[i] == first[i];
    FirstRowsAt(a.rows, a.columns, b, names, i);
    var row := first[i];
    assert Key(row) == Key(a.rows[i]);
    if j < |row| {
      assert 0 < j && names[j - 1] == c;
      FirstCellsAt(a.rows[i], a.columns, b, names, j - 1);
      assert row[j] == Prefer(Lookup(a.rows[i], a.columns, c), Get(b, Key(row), c));
    }
    FillRowPreferred(row, j, c, b, Lookup(a.rows[i], a.columns, c));
  }

  /** The back-fill leaves a row moved over from the new table as it is. */
  lemma FillMovedRow(a: Frame, b: Frame, c: string, i: nat)
    requires UniError(a).None? && UniError(b).None? && DistinctKeys(b.rows) && c != Uni
    requires |a.rows| <= i < |CombineFirst(a, b).rows|
    ensures var r := CombineFirst(a, b); FillRow(r.rows[i], Find(r.columns, c), c, b) == r.rows[i]
  {
    var r := CombineFirst(a, b);
    var all := r.columns;
    var j := Find(all, c);
    var extra := RowsNotIn(b.rows, Keys(a.rows));
    var t := i - |a.rows|;
    assert r.rows[i] == ReindexRows(extra, b.columns, all)[t];
    ReindexRowsAt(extra, b.columns, all, t);
    var x := extra[t];
    var row := ReindexRow(x, b.columns, all);
    ReindexRowAt(x, b.columns, all, 0);
    assert Key(row) == Key(x);
    RowsNotInFirst(b.rows, Keys(a.rows), t);
    if j < |row| {
      ReindexRowAt(x, b.columns, all, j);
      assert row[j] == Lookup(x, b.columns, c) == Get(b, Key(row), c);
    }
    FillRowPreferred(row, j, c, b, Get(b, Key(row), c));
  }

  /**
    `combine_gene_dataframes`: merges the new gene table into the old one, then back-fills
    the columns only the new table has.
   */
  method CombineGeneDataframes(oldDf: Frame, newDf: Frame) returns (r: Result<(Frame, seq<Cell>), CombineError>)
    requires DistinctKeys(newDf.rows)
    ensures r == CombineGene(oldDf, newDf)
  {
    var e := UniError(newDf);
    if e.Some? {
      return Failure(e.value);
    }
    e := UniError(oldDf);
    if e.Some? {
      return Failure(e.value);
    }
    var samplesToAdd := Keys(RowsNotIn(newDf.rows, Keys(oldDf.rows)));
    var combined := CombineFirst(oldDf, newDf);
    var columnsToAdd := NotIn(newDf.columns[1..], oldDf.columns[1..] + GeneSkip);
    for i := 0 to |columnsToAdd|
      invariant combined == CombineFirst(oldDf, newDf)
    {
      var c := columnsToAdd[i];
      NotInMembers(newDf.columns[1..], oldDf.columns[1..] + GeneSkip, c);
      assert c != Uni by {
        assert columnsToAdd[i] in columnsToAdd;
        assert GeneSkip[7] == Uni;
      }
      FillNaUnchanged(oldDf, newDf, c);
      combined := FillNa(combined, c, newDf);
    }
    return Success((combined, samplesToAdd));
  }

  /** The merge fails exactly when a table does not start with `UNI`, the new one checked first. */
  lemma CombineGeneFails(oldDf: Frame, newDf: Frame)
    ensures CombineGene(oldDf, newDf).Success? <==> UniError(newDf).None? && UniError(oldDf).None?
    ensures UniError(newDf).Some? ==> CombineGene(oldDf, newDf) == Failure(UniError(newDf).value)
  {
  }

  /** The merged table holds the keys of both tables, and `samples_to_add` is the new table's keys minus the old one's. */
  lemma CombineGeneKeys(oldDf: Frame, newDf: Frame, k: Cell)
    requires CombineGene(oldDf, newDf).Success?
    ensures var (merged, added) := CombineGene(oldDf, newDf).value;
      && (k in Keys(merged.rows) <==> k in Keys(oldDf.rows) || k in Keys(newDf.rows))
      && (k in added <==> k in Keys(newDf.rows) && k !in Keys(oldDf.rows))
  {
    var merged := CombineFirst(oldDf, newDf);
    var all := merged.columns;
    var first := FirstRows(oldDf.rows, oldDf.columns, newDf, all[1..]);
    var extra := RowsNotIn(newDf.rows, Keys(oldDf.rows));
    KeysAppend(first, ReindexRows(extra, newDf.columns, all));
    KeysReindex(extra, newDf.columns, all);
    forall i | 0 <= i < |oldDf.rows| ensures Key(first[i]) == Key(oldDf.rows[i]) {
      FirstRowsAt(oldDf.rows, oldDf.columns, newDf, all[1..], i);
    }
    SameKeys(oldDf.rows, first);
    RowsNotInKeys(newDf.rows, Keys(oldDf.rows), k);
  }

  /**
    In the merged table every cell outside the key column holds the old table's value when
    that is present, and the new table's otherwise: the first argument of `combine_first` wins.
   */
  lemma CombineGeneCells(oldDf: Frame, newDf: Frame, k: Cell, c: string)
    requires CombineGene(oldDf, newDf).Success?
    requires c != Uni && (c in oldDf.columns || c in newDf.columns)
    ensures Get(CombineGene(oldDf, newDf).value.0, k, c) == Prefer(Get(oldDf, k, c), Get(newDf, k, c))
  {
    if k in Keys(oldDf.rows) {
      CombineGeneOldKey(oldDf, newDf, k, c);
    } else {
      CombineGeneNewKey(oldDf, newDf, k, c);
    }
  }

  /** The layout of `combine_first`'s rows: the old rows, in order and with their keys, then the moved ones. */
  lemma CombineFirstLayout(oldDf: Frame, newDf: Frame, k: Cell, c: string)
    requires CombineGene(oldDf, newDf).Success?
    requires c != Uni && (c in oldDf.columns || c in newDf.columns)
    ensures var all := CombineFirst(oldDf, newDf).columns;
      && CombineFirst(oldDf, newDf).rows
         == FirstRows(oldDf.rows, oldDf.columns, newDf, all[1..])
            + ReindexRows(RowsNotIn(newDf.rows, Keys(oldDf.rows)), newDf.columns, all)
      && Keys(FirstRows(oldDf.rows, oldDf.columns, newDf, all[1..])) == Keys(oldDf.rows)
      && 0 < Find(all, c) < |all|
  {
    var all := CombineFirst(oldDf, newDf).columns;
    var first := FirstRows(oldDf.rows, oldDf.columns, newDf, all[1..]);
    forall i | 0 <= i < |oldDf.rows| ensures Key(first[i]) == Key(oldDf.rows[i]) {
      FirstRowsAt(oldDf.rows, oldDf.columns, newDf, all[1..], i);
    }
    SameKeys(oldDf.rows, first);
    ColumnUnionDistinctFree(oldDf.columns, newDf.columns, c);
  }

  /** `CombineGeneCells` for a key of the old table. */
  lemma CombineGeneOldKey(oldDf: Frame, newDf: Frame, k: Cell, c: string)
    requires CombineGene(oldDf, newDf).Success?
    requires c != Uni && (c in oldDf.columns || c in newDf.columns)
    requires k in Keys(oldDf.rows)
    ensures Get(CombineGene(oldDf, newDf).value.0, k, c) == Prefer(Get(oldDf, k, c), Get(newDf, k, c))
  {
    CombineFirstLayout(oldDf, newDf, k, c);
    var r := CombineFirst(oldDf, newDf);
    var first := FirstRows(oldDf.rows, oldDf.columns, newDf, r.columns[1..]);
    var moved := ReindexRows(RowsNotIn(newDf.rows, Keys(oldDf.rows)), newDf.columns, r.columns);
    RowOfAppend(first, moved, k);
    RowOfKey(oldDf.rows, k);
    RowOfKey(first, k);
    var i := Find(Keys(oldDf.rows), k);
    assert RowOf(r.rows, k) == Some(r.rows[i]);
    FirstRowCell(oldDf, newDf, c, i);
  }

  /** A cell of an old table's row in `combine_first`'s result: the old value if present, else the new table's. */
  lemma FirstRowCell(a: Frame, b: Frame, c: string, i: nat)
    requires UniError(a).None? && c != Uni && c in CombineFirst(a, b).columns && i < |a.rows|
    ensures var r := CombineFirst(a, b);
      Lookup(r.rows[i], r.columns, c) == Prefer(Lookup(a.rows[i], a.columns, c), Get(b, Key(a.rows[i]), c))
  {
    var r := CombineFirst(a, b);
    var all := r.columns;
    var j := Find(all, c);
    var names := all[1..];
    var first := FirstRows(a.rows, a.columns, b, names);
    assert r.rows[i] == first[i];
    FirstRowsAt(a.rows, a.columns, b, names, i);
    assert 0 < j && names[j - 1] == c;
    FirstCellsAt(a.rows[i], a.columns, b, names, j - 1);
    assert first[i][j] == FirstCells(a.rows[i], a.columns, b, names)[j - 1];
  }

  /** `CombineGeneCells` for a key the old table lacks. */
  lemma CombineGeneNewKey(oldDf: Frame, newDf: Frame, k: Cell, c: string)
    requires CombineGene(oldDf, newDf).Success?
    requires c != Uni && (c in oldDf.columns || c in newDf.columns)
    requires k !in Keys(oldDf.rows)
    ensures Get(CombineGene(oldDf, newDf).value.0, k, c) == Prefer(Get(oldDf, k, c), Get(newDf, k, c))
  {
    CombineFirstLayout(oldDf, newDf, k, c);
    var all := CombineFirst(oldDf, newDf).columns;
    var first := FirstRows(oldDf.rows, oldDf.columns, newDf, all[1..]);
    var extra := RowsNotIn(newDf.rows, Keys(oldDf.rows));
    var moved := ReindexRows(extra, newDf.columns, all);
    RowOfAppend(first, moved, k);
    var j := Find(all, c);
    KeysReindex(extra, newDf.columns, all);
    RowsNotInRowOf(newDf.rows, Keys(oldDf.rows), k);
    RowsNotInKeys(newDf.rows, Keys(oldDf.rows), k);
    if k in Keys(newDf.rows) {
      RowOfKey(extra, k);
      var t := Find(Keys(extra), k);
      ReindexRowsAt(extra, newDf.columns, all, t);
      ReindexRowAt(extra[t], newDf.columns, all, j);
    }
  }

  /** A name of either table is in the union of their columns. */
  lemma ColumnUnionDistinctFree(xs: seq<string>, ys: seq<string>, c: string)
    requires c in xs || c in ys
    ensures c in ColumnUnion(xs, ys)
  {
    NotInMembers(ys, xs, c);
  }

  /**
    `combine_qc_dataframes(df1, df2)`: `df1.update(df2)`, then the rows of `df2` whose key
    `df1` lacks stacked under it.
   */
  function CombineQc(df1: Frame, df2: Frame): Result<Frame, CombineError>
    requires Rect(df1)
  {
    if UniError(df1).Some? then Failure(UniError(df1).value)
    else if UniError(df2).Some? then Failure(UniError(df2).value)
    else Success(Concat(Updated(df1, df2), Frame(df2.columns, RowsNotIn(df2.rows, Keys(df1.rows)))))
  }

  /** `combine_qc_dataframes`: updates a copy of the first table in place, then appends the new rows. */
  method CombineQcDataframes(df1: Frame, df2: Frame) returns (r: Result<Frame, CombineError>)
    requires Rect(df1)
    ensures r == CombineQc(df1, df2)
  {
    var e := UniError(df1);
    if e.Some? {
      return Failure(e.value);
    }
    e := UniError(df2);
    if e.Some? {
      return Failure(e.value);
    }
    var t := new Table(df1);
    t.Update(df2);
    var extra := Frame(df2.columns, RowsNotIn(df2.rows, Keys(df1.rows)));
    return Success(Concat(t.Value(), extra));
  }

  /**
    The QC merge fails exactly when a table has no columns or does not start with `UNI`, the
    first table's fault reported first.
   */
  lemma CombineQcFails(df1: Frame, df2: Frame)
    requires Rect(df1)
    ensures CombineQc(df1, df2).Success? <==> UniError(df1).None? && UniError(df2).None?
    ensures UniError(df1).Some? ==> CombineQc(df1, df2) == Failure(UniError(df1).value)
    ensures UniError(df1).None? && UniError(df2).Some? ==> CombineQc(df1, df2) == Failure(UniError(df2).value)
  {
  }

  /** A first table keyed by a `UNI` column that is not its first is refused. */
  lemma CombineQcUniNotFirst()
    ensures var df1 := Frame(["A", Uni], [[Some("x"), Some("k")]]);
      CombineQc(df1, Frame([Uni, "A"], [])) == Failure(FirstColumnNotUni)
  {
  }

  /**
    For a key of the first table, every cell outside the key column takes the second table's
    value when that is present and keeps the first table's otherwise.
   */
  lemma CombineQcShared(df1: Frame, df2: Frame, k: Cell, c: string)
    requires Rect(df1) && CombineQc(df1, df2).Success?
    requires k in Keys(df1.rows) && c in df1.columns && c != Uni
    ensures Get(CombineQc(df1, df2).value, k, c) == Prefer(Get(df2, k, c), Get(df1, k, c))
  {
    var u := Updated(df1, df2);
    var extra := Frame(df2.columns, RowsNotIn(df2.rows, Keys(df1.rows)));
    var all := ColumnUnion(df1.columns, df2.columns);
    var top := ReindexRows(u.rows, df1.columns, all);
    assert Concat(u, extra).rows == top + ReindexRows(extra.rows, df2.columns, all);
    RowOfAppend(top, ReindexRows(extra.rows, df2.columns, all), k);
    KeysReindex(u.rows, df1.columns, all);
    KeysUpdated(df1, df2);
    RowOfKey(df1.rows, k);
    var i := Find(Keys(df1.rows), k);
    ReindexRowsAt(u.rows, df1.columns, all, i);
    var jc := Find(df1.columns, c);
    ReindexRowAt(u.rows[i], df1.columns, all, Find(all, c));
    UpdatedCells(df1, df2, i, jc);
  }

  /**
    `update` adds no column, so for a key of the first table a column only the second table
    has is missing after the merge: the second table's value there is dropped.
   */
  lemma CombineQcSharedNewColumn(df1: Frame, df2: Frame, k: Cell, c: string)
    requires Rect(df1) && CombineQc(df1, df2).Success?
    requires k in Keys(df1.rows) && c !in df1.columns
    ensures Get(CombineQc(df1, df2).value, k, c) == None
  {
    var u := Updated(df1, df2);
    var extra := Frame(df2.columns, RowsNotIn(df2.rows, Keys(df1.rows)));
    var all := ColumnUnion(df1.columns, df2.columns);
    var top := ReindexRows(u.rows, df1.columns, all);
    assert Concat(u, extra).rows == top + ReindexRows(extra.rows, df2.columns, all);
    RowOfAppend(top, ReindexRows(extra.rows, df2.columns, all), k);
    KeysReindex(u.rows, df1.columns, all);
    KeysUpdated(df1, df2);
    RowOfKey(df1.rows, k);
    var i := Find(Keys(df1.rows), k);
    ReindexRowsAt(u.rows, df1.columns, all, i);
    var j := Find(all, c);
    if j < |all| {
      ReindexRowAt(u.rows[i], df1.columns, all, j);
      UpdatedCells(df1, df2, i, 0);
      LookupAbsent(u.rows[i], df1.columns, c);
    }
  }

  /**
    The result's index is the first table's keys, in order, followed by the second table's
    keys that the first lacks.
   */
  lemma CombineQcKeys(df1: Frame, df2: Frame)
    requires Rect(df1) && CombineQc(df1, df2).Success?
    ensures Keys(CombineQc(df1, df2).value.rows) == Keys(df1.rows) + Keys(RowsNotIn(df2.rows, Keys(df1.rows)))
  {
    var u := Updated(df1, df2);
    var extra := Frame(df2.columns, RowsNotIn(df2.rows, Keys(df1.rows)));
    var all := ColumnUnion(df1.columns, df2.columns);
    KeysAppend(ReindexRows(u.rows, df1.columns, all), ReindexRows(extra.rows, df2.columns, all));
    KeysReindex(u.rows, df1.columns, all);
    KeysReindex(extra.rows, df2.columns, all);
    KeysUpdated(df1, df2);
  }

  /** A key only the second table has brings that table's row: each of its cells is kept. */
  lemma CombineQcAdded(df1: Frame, df2: Frame, k: Cell, c: string)
    requires Rect(df1) && CombineQc(df1, df2).Success?
    requires k !in Keys(df1.rows) && c in df2.columns
    ensures Get(CombineQc(df1, df2).value, k, c) == Get(df2, k, c)
  {
    var u := Updated(df1, df2);
    var extra := Frame(df2.columns, RowsNotIn(df2.rows, Keys(df1.rows)));
    var all := ColumnUnion(df1.columns, df2.columns);
    var top := ReindexRows(u.rows, df1.columns, all);
    var bottom := ReindexRows(extra.rows, df2.columns, all);
    assert Concat(u, extra).rows == top + bottom;
    RowOfAppend(top, bottom, k);
    KeysReindex(u.rows, df1.columns, all);
    KeysUpdated(df1, df2);
    KeysReindex(extra.rows, df2.columns, all);
    RowsNotInRowOf(df2.rows, Keys(df1.rows), k);
    RowsNotInKeys(df2.rows, Keys(df1.rows), k);
    ColumnUnionDistinctFree(df1.columns, df2.columns, c);
    if k in Keys(df2.rows) {
      RowOfKey(extra.rows, k);
      var t := Find(Keys(extra.rows), k);
      ReindexRowsAt(extra.rows, df2.columns, all, t);
      ReindexRowAt(extra.rows[t], df2.columns, all, Find(all, c));
    }
  }

  /** The CENTAR block of a reference table's columns: from `Toxinotype` up to, not including, `AR_Database`. */
  function CentarSlice(reference: seq<string>): seq<string> {
    Span(reference, Find(reference, "Toxinotype"), Find(reference, "AR_Database"))
  }

  /** Blank columns for the names in `cols` the table does not have yet, added at the end one by one. */
  function AddBlanks(f: Frame, cols: seq<string>): Frame {
    if cols == [] then f
    else
      var g := AddBlanks(f, cols[..|cols| - 1]);
      var c := cols[|cols| - 1];
      if c in g.columns then g else WithBlank(g, c)
  }

  /**
    Adding blank columns keeps the table's columns as a prefix, leaves every name of `cols`
    present, and adds no other name.
   */
  lemma {:induction false} AddBlanksColumns(f: Frame, cols: seq<string>)
    ensures var r := AddBlanks(f, cols);
      && |f.columns| <= |r.columns| && r.columns[..|f.columns|] == f.columns
      && (forall c :: c in cols ==> c in r.columns)
      && (forall c :: c in r.columns ==> c in f.columns || c in cols)
  {
    if cols != [] {
      var init := cols[..|cols| - 1];
      AddBlanksColumns(f, init);
      forall c | c in cols ensures c in AddBlanks(f, cols).columns {
        var t :| 0 <= t < |cols| && cols[t] == c;
        if t < |cols| - 1 {
          assert c in init;
        }
      }
    }
  }

  /**
    Adding blank columns keeps every row and its key and extends each row with missing cells
    only: the old cells are a prefix of the new row.
   */
  lemma {:induction false} AddBlanksRows(f: Frame, cols: seq<string>)
    requires Rect(f)
    ensures var r := AddBlanks(f, cols);
      && Rect(r) && |r.rows| == |f.rows| && Keys(r.rows) == Keys(f.rows) && |f.columns| <= |r.columns|
      && (forall i :: 0 <= i < |f.rows| ==> r.rows[i][..|f.columns|] == f.rows[i])
      && (forall i, j :: 0 <= i < |f.rows| && |f.columns| <= j < |r.columns| ==> r.rows[i][j] == None)
  {
    if cols != [] {
      var g := AddBlanks(f, cols[..|cols| - 1]);
      AddBlanksRows(f, cols[..|cols| - 1]);
      AddBlanksColumns(f, cols[..|cols| - 1]);
      var c := cols[|cols| - 1];
      if c !in g.columns {
        WithBlankCells(g, c);
        forall i | 0 <= i < |f.rows| ensures WithBlank(g, c).rows[i][..|f.columns|] == f.rows[i] {
          assert WithBlank(g, c).rows[i][..|f.columns|] == g.rows[i][..|f.columns|];
        }
      }
    }
  }

  /**
    `add_blank_centar_columns(df, reference_df)`: a blank column at the end of `df` for each
    CENTAR column of the reference that `df` lacks; fails, leaving `df` alone, when the
    reference has no `Toxinotype` or no `AR_Database` column.
   */
  method AddBlankCentarColumns(df: Table, reference: seq<string>) returns (r: Result<(), CombineError>)
    modifies df
    ensures r.Failure? <==> "Toxinotype" !in reference || "AR_Database" !in reference
    ensures r.Failure? ==> r.error == CentarBoundsMissing && df.Value() == old(df.Value())
    ensures r.Success? ==> df.Value() == AddBlanks(old(df.Value()), CentarSlice(reference))
  {
    var start := Find(reference, "Toxinotype");
    var end := Find(reference, "AR_Database");
    if start == |reference| || end == |reference| {
      return Failure(CentarBoundsMissing);
    }
    var centarColumns := Span(reference, start, end);
    for i := 0 to |centarColumns|
      invariant df.Value() == AddBlanks(old(df.Value()), centarColumns[..i])
    {
      assert centarColumns[..i + 1][..i] == centarColumns[..i];
      if centarColumns[i] !in df.columns {
        df.AddBlankColumn(centarColumns[i]);
      }
    }
    assert centarColumns[..|centarColumns|] == centarColumns;
    return Success(());
  }

  /** The flags `check_column_presence` returns. */
  datatype Presence = Presence(phoenix: bool, shiga: bool, centar1: bool, centar2: bool, allCentar: bool)

  /** A reference has a CENTAR block when it names both of its bounds. */
  predicate HasCentarBounds(columns: seq<string>) {
    "Toxinotype" in columns && "AR_Database" in columns
  }

  /**
    The outcome of `check_column_presence` on tables with columns `c1` (old) and `c2` (new):
    `BUSCO_Lineage` must be in both or in neither; a table lacking `Toxin-A_sub-type` while
    the other has it takes the other's CENTAR block, which must have its bounds.
   */
  function ColumnPresence(c1: seq<string>, c2: seq<string>): Result<Presence, CombineError> {
    var busco1 := "BUSCO_Lineage" in c1;
    var busco2 := "BUSCO_Lineage" in c2;
    var centar1 := "Toxin-A_sub-type" in c1;
    var centar2 := "Toxin-A_sub-type" in c2;
    if busco1 && !busco2 then Failure(OldIsCdcPhoenix)
    else if !busco1 && busco2 then Failure(NewIsCdcPhoenix)
    else if !centar1 && centar2 && !HasCentarBounds(c2) then Failure(CentarBoundsMissing)
    else if centar1 && !centar2 && !HasCentarBounds(c1) then Failure(CentarBoundsMissing)
    else
      var shiga := "ShigaPass_Organism" in c1 || "ShigaPass_Organism" in c2;
      Success(Presence(!busco1, shiga, centar1, centar2, centar1 || centar2))
  }

  /**
    `check_column_presence(df1, df2)`: computes the compatibility flags, giving the table
    without CENTAR columns the other table's CENTAR block as blank columns.
   */
  method CheckColumnPresence(df1: Table, df2: Table) returns (r: Result<Presence, CombineError>)
    modifies df1, df2
    ensures r == ColumnPresence(old(df1.columns), old(df2.columns))
    ensures var centar1 := "Toxin-A_sub-type" in old(df1.columns);
      var centar2 := "Toxin-A_sub-type" in old(df2.columns);
      && df1.Value() == (if r.Success? && !centar1 && centar2 then AddBlanks(old(df1.Value()), CentarSlice(old(df2.columns))) else old(df1.Value()))
      && df2.Value() == (if r.Success? && centar1 && !centar2 then AddBlanks(old(df2.Value()), CentarSlice(old(df1.columns))) else old(df2.Value()))
  {
    var busco1 := "BUSCO_Lineage" in df1.columns;
    var busco2 := "BUSCO_Lineage" in df2.columns;
    var phoenix;
    if busco1 && busco2 {
      phoenix := false;
    } else if !busco1 && !busco2 {
      phoenix := true;
    } else if busco1 {
      return Failure(OldIsCdcPhoenix);
    } else {
      return Failure(NewIsCdcPhoenix);
    }
    ghost var c1, c2 := df1.columns, df2.columns;
    var centar1 := "Toxin-A_sub-type" in df1.columns;
    var centar2 := "Toxin-A_sub-type" in df2.columns;
    var filled := FillCentar(df1, df2);
    if filled.Failure? {
      return Failure(filled.error);
    }
    var allCentar := centar1 || centar2;
    var shiga := "ShigaPass_Organism" in df1.columns || "ShigaPass_Organism" in df2.columns;
    assert shiga == ("ShigaPass_Organism" in c1 || "ShigaPass_Organism" in c2);
    return Success(Presence(phoenix, shiga, centar1, centar2, allCentar));
  }

  /**
    The CENTAR part of `check_column_presence`: when only one table has `Toxin-A_sub-type`,
    the other takes its CENTAR block as blank columns. Blank-filling adds no name outside
    the two tables, so a name is in either table afterwards exactly when it was before.
   */
  method FillCentar(df1: Table, df2: Table) returns (r: Result<(), CombineError>)
    modifies df1, df2
    ensures var centar1 := "Toxin-A_sub-type" in old(df1.columns);
      var centar2 := "Toxin-A_sub-type" in old(df2.columns);
      && (r.Failure? <==> (!centar1 && centar2 && !HasCentarBounds(old(df2.columns))) || (centar1 && !centar2 && !HasCentarBounds(old(df1.columns))))
      && (r.Failure? ==> r.error == CentarBoundsMissing)
      && df1.Value() == (if r.Success? && !centar1 && centar2 then AddBlanks(old(df1.Value()), CentarSlice(old(df2.columns))) else old(df1.Value()))
      && df2.Value() == (if r.Success? && centar1 && !centar2 then AddBlanks(old(df2.Value()), CentarSlice(old(df1.columns))) else old(df2.Value()))
    ensures forall c :: c in df1.columns || c in df2.columns <==> c in old(df1.columns) || c in old(df2.columns)
  {
    AddBlanksColumns(df1.Value(), CentarSlice(df2.columns));
    AddBlanksColumns(df2.Value(), CentarSlice(df1.columns));
    SliceMembers(df1.columns);
    SliceMembers(df2.columns);
    if "Toxin-A_sub-type" in df1.columns || "Toxin-A_sub-type" in df2.columns {
      if "Toxin-A_sub-type" !in df1.columns {
        r := AddBlankCentarColumns(df1, df2.columns);
      } else if "Toxin-A_sub-type" !in df2.columns {
        r := AddBlankCentarColumns(df2, df1.columns);
      } else {
        r := Success(());
      }
    } else {
      r := Success(());
    }
  }

  /** Every name of the CENTAR block is a name of the reference. */
  lemma SliceMembers(reference: seq<string>)
    ensures forall c :: c in CentarSlice(reference) ==> c in reference
  {
    var lo := Find(reference, "Toxinotype");
    forall c | c in CentarSlice(reference) ensures c in reference {
      var t :| 0 <= t < |CentarSlice(reference)| && CentarSlice(reference)[t] == c;
      assert reference[lo + t] == c;
    }
  }

  /** The flags do not depend on which table is called old: swapping the tables swaps the CENTAR flags and the error. */
  lemma ColumnPresenceSwap(c1: seq<string>, c2: seq<string>)
    ensures var p := ColumnPresence(c1, c2); var q := ColumnPresence(c2, c1);
      && (p.Success? <==> q.Success?)
      && (p.Success? ==> q.value == Presence(p.value.phoenix, p.value.shiga, p.value.centar2, p.value.centar1, p.value.allCentar))
      && (p == Failure(OldIsCdcPhoenix) <==> q == Failure(NewIsCdcPhoenix))
  {
  }

  /**
    The check fails exactly when `BUSCO_Lineage` is in one table only, naming the table that
    has it, or when the table whose CENTAR block is copied lacks one of the block's bounds.
   */
  lemma ColumnPresenceErrors(c1: seq<string>, c2: seq<string>)
    ensures var busco1, busco2 := "BUSCO_Lineage" in c1, "BUSCO_Lineage" in c2;
      var centar1, centar2 := "Toxin-A_sub-type" in c1, "Toxin-A_sub-type" in c2;
      && (ColumnPresence(c1, c2).Failure? <==>
          (busco1 != busco2
           || (!centar1 && centar2 && !HasCentarBounds(c2))
           || (centar1 && !centar2 && !HasCentarBounds(c1))))
      && (busco1 && !busco2 ==> ColumnPresence(c1, c2) == Failure(OldIsCdcPhoenix))
      && (!busco1 && busco2 ==> ColumnPresence(c1, c2) == Failure(NewIsCdcPhoenix))
      && (busco1 == busco2 && ColumnPresence(c1, c2).Failure? ==> ColumnPresence(c1, c2) == Failure(CentarBoundsMissing))
  {
  }

  /**
    On success the CENTAR flags record which table had `Toxin-A_sub-type` before any blank
    columns were added, and afterwards both tables hold the whole CENTAR block of the one
    that had it.
   */
  lemma ColumnPresenceCentar(f1: Frame, f2: Frame)
    requires ColumnPresence(f1.columns, f2.columns).Success?
    ensures var p := ColumnPresence(f1.columns, f2.columns).value;
      && (p.centar1 <==> "Toxin-A_sub-type" in f1.columns)
      && (p.centar2 <==> "Toxin-A_sub-type" in f2.columns)
      && (p.phoenix <==> "BUSCO_Lineage" !in f1.columns && "BUSCO_Lineage" !in f2.columns)
      && (p.allCentar <==> p.centar1 || p.centar2)
      && (p.shiga <==> "ShigaPass_Organism" in f1.columns || "ShigaPass_Organism" in f2.columns)
      && (p.centar2 && !p.centar1 ==> forall c :: c in CentarSlice(f2.columns) ==> c in AddBlanks(f1, CentarSlice(f2.columns)).columns)
      && (p.centar1 && !p.centar2 ==> forall c :: c in CentarSlice(f1.columns) ==> c in AddBlanks(f2, CentarSlice(f1.columns)).columns)
  {
    AddBlanksColumns(f1, CentarSlice(f2.columns));
    AddBlanksColumns(f2, CentarSlice(f1.columns));
  }

  /**
    `df.reindex(columns=to)`: nothing to do when the columns already are `to`; otherwise each
    row laid out under `to`, which pandas refuses when the table's column names repeat.
   */
  function Reindex(f: Frame, to: seq<string>): Result<seq<seq<Cell>>, CombineError> {
    if f.columns == to then Success(f.rows)
    else if !Distinct(f.columns) then Failure(DuplicateColumns)
    else Success(ReindexRows(f.rows, f.columns, to))
  }

  /**
    `add_and_concatenate(df1, df2)`: both tables laid out under the first table's columns
    followed by the second's new ones, then stacked.
   */
  function AddAndConcatenate(df1: Frame, df2: Frame): Result<Frame, CombineError> {
    var all := ColumnUnion(df1.columns, df2.columns);
    var r1 := Reindex(df1, all);
    var r2 := Reindex(df2, all);
    if r1.Failure? then Failure(r1.error)
    else if r2.Failure? then Failure(r2.error)
    else Success(Frame(all, r1.value + r2.value))
  }

  /** The first table's columns are the whole union exactly when the second table adds no name. */
  lemma UnionIsFirst(xs: seq<string>, ys: seq<string>)
    ensures ColumnUnion(xs, ys) == xs <==> forall c :: c in ys ==> c in xs
  {
    if forall c :: c in ys ==> c in xs {
      if NotIn(ys, xs) != [] {
        NotInMembers(ys, xs, NotIn(ys, xs)[0]);
      }
      assert ColumnUnion(xs, ys) == xs + [];
    } else {
      var c :| c in ys && c !in xs;
      NotInMembers(ys, xs, c);
      assert |ColumnUnion(xs, ys)| > |xs|;
    }
  }

  /**
    Stacking fails exactly when a table whose column names repeat would have to be laid out
    anew: the first table when the second brings a name it lacks, the second when its
    columns are not already the union.
   */
  lemma AddAndConcatenateFails(df1: Frame, df2: Frame)
    ensures var all := ColumnUnion(df1.columns, df2.columns);
      AddAndConcatenate(df1, df2).Success? <==>
        (&& (Distinct(df1.columns) || forall c :: c in df2.columns ==> c in df1.columns)
         && (Distinct(df2.columns) || df2.columns == all))
    ensures AddAndConcatenate(df1, df2).Failure? ==> AddAndConcatenate(df1, df2).error == DuplicateColumns
  {
    UnionIsFirst(df1.columns, df2.columns);
  }

  /**
    The stacked table has the first table's columns in order, then the second's other
    columns in theirs, without repeats when neither table repeats a name; and every row of
    both tables, the first table's first.
   */
  lemma AddAndConcatenateShape(df1: Frame, df2: Frame)
    requires AddAndConcatenate(df1, df2).Success?
    ensures var r := AddAndConcatenate(df1, df2).value;
      && r.columns == df1.columns + NotIn(df2.columns, df1.columns)
      && (Distinct(df1.columns) && Distinct(df2.columns) ==> Distinct(r.columns))
      && (forall c :: c in r.columns <==> c in df1.columns || c in df2.columns)
      && |r.rows| == |df1.rows| + |df2.rows|
  {
    forall c ensures c in ColumnUnion(df1.columns, df2.columns) <==> c in df1.columns || c in df2.columns {
      NotInMembers(df2.columns, df1.columns, c);
    }
    if Distinct(df1.columns) && Distinct(df2.columns) {
      ColumnUnionDistinct(df1.columns, df2.columns);
    }
  }

  /** A row of the first table keeps its cells in their positions, and is missing under the added columns. */
  lemma AddAndConcatenateFirst(df1: Frame, df2: Frame, i: nat, j: nat)
    requires Rect(df1) && AddAndConcatenate(df1, df2).Success?
    requires i < |df1.rows| && j < |AddAndConcatenate(df1, df2).value.columns|
    ensures AddAndConcatenate(df1, df2).value.rows[i][j] == if j < |df1.columns| then df1.rows[i][j] else None
  {
    var all := ColumnUnion(df1.columns, df2.columns);
    var r1 := Reindex(df1, all).value;
    assert AddAndConcatenate(df1, df2).value.rows[i] == r1[i];
    if df1.columns != all {
      ReindexRowsAt(df1.rows, df1.columns, all, i);
      ReindexRowAt(df1.rows[i], df1.columns, all, j);
      if j < |df1.columns| {
        LookupPresent(df1.rows[i], df1.columns, j);
      } else {
        var extra := NotIn(df2.columns, df1.columns);
        assert all[j] == extra[j - |df1.columns|] && extra[j - |df1.columns|] in extra;
        NotInMembers(df2.columns, df1.columns, all[j]);
        LookupAbsent(df1.rows[i], df1.columns, all[j]);
      }
    }
  }

  /**
    A row of the second table follows all rows of the first. It is kept as it is when its
    columns already are the union, and otherwise keeps its cell under each of its column names.
   */
  lemma AddAndConcatenateSecond(df1: Frame, df2: Frame, i: nat, j: nat)
    requires Rect(df2) && AddAndConcatenate(df1, df2).Success?
    requires i < |df2.rows| && j < |df2.columns|
    ensures var r := AddAndConcatenate(df1, df2).value;
      && (df2.columns == r.columns ==> r.rows[|df1.rows| + i] == df2.rows[i])
      && (Distinct(df2.columns) ==> Lookup(r.rows[|df1.rows| + i], r.columns, df2.columns[j]) == df2.rows[i][j])
  {
    var all := ColumnUnion(df1.columns, df2.columns);
    var r1, r2 := Reindex(df1, all).value, Reindex(df2, all).value;
    var row := r2[i];
    assert AddAndConcatenate(df1, df2).value.rows[|df1.rows| + i] == row;
    if Distinct(df2.columns) {
      var c := df2.columns[j];
      LookupPresent(df2.rows[i], df2.columns, j);
      if df2.columns != all {
        NotInMembers(df2.columns, df1.columns, c);
        var jr := Find(all, c);
        ReindexRowsAt(df2.rows, df2.columns, all, i);
        ReindexRowAt(df2.rows[i], df2.columns, all, jr);
      }
    }
  }

  /** A spreadsheet cell as openpyxl reads it: empty, text, or any other value. */
  datatype XlValue = Blank | Text(s: string) | Other

  /** A footer row: text in the first cell and nothing in the others. */
  predicate FooterLike(row: seq<XlValue>) {
    |row| > 0 && row[0].Text? && forall t :: 1 <= t < |row| ==> row[t] == Blank
  }

  /**
    The footer rows counted by scanning `grid` from its last row upwards: rows before the
    first footer row are skipped, and the scan stops at the first other row after it
    (`inSection` once a footer row has been seen). `None` when the scan reaches a row
    without cells, where `row[0]` raises.
   */
  function FooterCount(grid: seq<seq<XlValue>>, inSection: bool): Option<nat> {
    if grid == [] then Some(0)
    else
      var row := grid[|grid| - 1];
      if |row| == 0 then None
      else if FooterLike(row) then Shift(FooterCount(grid[..|grid| - 1], true), 1)
      else if inSection then Some(0)
      else FooterCount(grid[..|grid| - 1], false)
  }

  function Shift(x: Option<nat>, d: nat): Option<nat> {
    match x
    case None => None
    case Some(n) => Some(n + d)
  }

  /** What `detect_footer_lines` returns: three lines of review and spacing, plus the footer rows. */
  function FooterLines(grid: seq<seq<XlValue>>): Option<nat> {
    Shift(FooterCount(grid, false), 3)
  }

  /** `detect_footer_lines` over the sheet's rows: a reversed scan with a counter, a flag and a `break`. */
  method DetectFooterLines(grid: seq<seq<XlValue>>) returns (r: Option<nat>)
    ensures r == FooterLines(grid)
  {
    var footerLines := 3;
    var isFooterSection := false;
    var i := |grid|;
    assert grid[..i] == grid;
    while i > 0
      invariant 0 <= i <= |grid|
      invariant Shift(FooterCount(grid[..i], isFooterSection), footerLines) == FooterLines(grid)
    {
      var row := grid[i - 1];
      assert grid[..i][..i - 1] == grid[..i - 1];
      if |row| == 0 {
        return None;
      }
      if FooterLike(row) {
        footerLines := footerLines + 1;
        isFooterSection := true;
      } else if isFooterSection {
        return Some(footerLines);
      }
      i := i - 1;
    }
    return Some(footerLines);
  }

  /**
    Inside a footer section the scan counts the contiguous footer rows at the bottom of
    `grid`, stopping at the first row above them that is not one.
   */
  lemma {:induction false} FooterCountInside(grid: seq<seq<XlValue>>)
    requires forall t :: 0 <= t < |grid| ==> |grid[t]| > 0
    ensures FooterCount(grid, true).Some?
    ensures var n := FooterCount(grid, true).value;
      && n <= |grid|
      && (forall t :: |grid| - n <= t < |grid| ==> FooterLike(grid[t]))
      && (n < |grid| ==> !FooterLike(grid[|grid| - n - 1]))
  {
    if grid != [] {
      var init := grid[..|grid| - 1];
      if FooterLike(grid[|grid| - 1]) {
        FooterCountInside(init);
      }
    }
  }

  /**
    On a sheet whose rows all have cells, `detect_footer_lines` finds the bottom-most run of
    footer rows: it ends at `hi`, no footer row lies below it, the row above it is not a
    footer row, and the result is 3 plus its length (just 3 when there is no footer row).
   */
  lemma {:induction false} FooterRun(grid: seq<seq<XlValue>>) returns (hi: nat)
    requires forall t :: 0 <= t < |grid| ==> |grid[t]| > 0
    ensures FooterLines(grid).Some? && FooterLines(grid).value >= 3
    ensures var n := FooterLines(grid).value - 3;
      && n <= hi <= |grid|
      && (forall t :: hi <= t < |grid| ==> !FooterLike(grid[t]))
      && (forall t :: hi - n <= t < hi ==> FooterLike(grid[t]))
      && (hi - n > 0 ==> !FooterLike(grid[hi - n - 1]))
      && (n == 0 ==> hi == 0)
  {
    if grid == [] {
      hi := 0;
    } else {
      var init := grid[..|grid| - 1];
      if FooterLike(grid[|grid| - 1]) {
        FooterCountInside(init);
        hi := |grid|;
      } else {
        hi := FooterRun(init);
      }
    }
  }

  /** The canonical CENTAR column names of each of the four sections, in display order. */
  const CentarHeadlines: seq<seq<string>> := [
    ["UNI", "Toxinotype", "Toxin-A_sub-type", "tcdA", "Toxin-B_sub-type", "tcdB"],
    ["tcdC_Variant", "tcdC other mutations", "tcdC", "tcdR", "tcdE", "cdtA", "cdtB", "cdtR_Variant",
     "cdtR other mutations", "cdtR", "cdtAB1", "cdtAB2", "PaLoc_NonTox_Variant", "PaLoc_NonTox other mutations",
     "PaLoc_NonTox"],
    ["gyrA known mutations", "gyrA other mutations", "gyrA", "gyrB known mutations", "gyrB other mutations", "gyrB",
     "dacS known mutations", "dacS other mutations", "dacS", "feoB known mutations", "feoB other mutations", "feoB",
     "fur known mutations", "fur other mutations", "fur", "gdpP known mutations", "gdpP other mutations", "gdpP",
     "glyC known mutations", "glyC other mutations", "glyC", "hemN known mutations", "hemN other mutations", "hemN",
     "hsmA known mutations", "hsmA other mutations", "hsmA", "lscR known mutations", "lscR other mutations", "lscR",
     "marR known mutations", "marR other mutations", "marR", "murG known mutations", "murG other mutations", "murG",
     "nifJ known mutations", "nifJ other mutations", "nifJ", "PNimB known mutations", "PNimB other mutations", "PNimB",
     "PNimB |", "rpoB known mutations", "rpoB other mutations", "rpoB", "rpoC known mutations", "rpoC other mutations",
     "rpoC", "sdaB known mutations", "sdaB other mutations", "sdaB", "thiH known mutations", "thiH other mutations",
     "thiH", "vanR known mutations", "vanR other mutations", "vanR", "vanS known mutations", "vanS other mutations",
     "vanS"],
    ["CEMB RT Crosswalk", "Inferred RT", "Probability", "ML Note", "Plasmid Info"]
  ]

  /**
    `list(set(a).union(set(b)))`: each name of either list once. Python's set order is not
    modelled; this keeps first occurrences in order.
   */
  function SetUnion(a: seq<string>, b: seq<string>): seq<string> {
    Dedup(a + b)
  }

  function Dedup(xs: seq<string>): seq<string> {
    if xs == [] then []
    else
      var d := Dedup(xs[..|xs| - 1]);
      if xs[|xs| - 1] in d then d else d + [xs[|xs| - 1]]
  }

  /** Removing repeats keeps every name once and adds none. */
  lemma {:induction false} DedupSpec(xs: seq<string>)
    ensures Distinct(Dedup(xs))
    ensures forall x :: x in Dedup(xs) <==> x in xs
  {
    if xs != [] {
      var init := xs[..|xs| - 1];
      DedupSpec(init);
      assert xs == init + [xs[|xs| - 1]];
    }
  }

  /** The union of two name lists has no repeats and holds exactly the names of either list. */
  lemma SetUnionSpec(a: seq<string>, b: seq<string>)
    ensures Distinct(SetUnion(a, b))
    ensures forall x :: x in SetUnion(a, b) <==> x in a || x in b
  {
    DedupSpec(a + b);
  }

  /** `[x for col in cols if col == x]`: `x` once per time it occurs in `cols`. */
  function Occurrences(x: string, cols: seq<string>): seq<string> {
    if cols == [] then []
    else Occurrences(x, cols[..|cols| - 1]) + (if cols[|cols| - 1] == x then [x] else [])
  }

  /** The headlines found by the nested loops: each canonical name once per time it occurs in `cols`. */
  function Matches(canon: seq<string>, cols: seq<string>): seq<string> {
    if canon == [] then []
    else Matches(canon[..|canon| - 1], cols) + Occurrences(canon[|canon| - 1], cols)
  }

  /** `[x for x in canon if x in cols]`: the canonical names present in `cols`, in canonical order. */
  function FilterIn(canon: seq<string>, cols: seq<string>): seq<string> {
    if canon == [] then []
    else FilterIn(canon[..|canon| - 1], cols) + (if canon[|canon| - 1] in cols then [canon[|canon| - 1]] else [])
  }

  /** In a list without repeats a name occurs once or not at all. */
  lemma {:induction false} OccurrencesDistinct(x: string, cols: seq<string>)
    requires Distinct(cols)
    ensures Occurrences(x, cols) == if x in cols then [x] else []
  {
    if cols != [] {
      var init := cols[..|cols| - 1];
      OccurrencesDistinct(x, init);
      assert cols == init + [cols[|cols| - 1]];
    }
  }

  /** Over a list without repeats the nested loops find the canonical names present, in canonical order. */
  lemma {:induction false} MatchesFilter(canon: seq<string>, cols: seq<string>)
    requires Distinct(cols)
    ensures Matches(canon, cols) == FilterIn(canon, cols)
  {
    if canon != [] {
      MatchesFilter(canon[..|canon| - 1], cols);
      OccurrencesDistinct(canon[|canon| - 1], cols);
    }
  }

  /** A name is found exactly when it is canonical and present. */
  lemma {:induction false} FilterInMembers(canon: seq<string>, cols: seq<string>, x: string)
    ensures x in FilterIn(canon, cols) <==> x in canon && x in cols
  {
    if canon != [] {
      var init := canon[..|canon| - 1];
      FilterInMembers(init, cols, x);
      assert canon == init + [canon[|canon| - 1]];
    }
  }

  /** The found names depend only on which names are present, not on the order of `cols`. */
  lemma {:induction false} FilterInSameMembers(canon: seq<string>, a: seq<string>, b: seq<string>)
    requires forall x :: x in a <==> x in b
    ensures FilterIn(canon, a) == FilterIn(canon, b)
  {
    if canon != [] {
      FilterInSameMembers(canon[..|canon| - 1], a, b);
    }
  }

  /**
    What `update_centar_columns` returns for the merged name lists: each section's canonical
    names found in its list, and the counts of found names, less the `UNI` key in the first.
    Only four sections have canonical lists.
   */
  function Tally(lists: seq<seq<string>>): Result<(seq<seq<string>>, seq<int>), CombineError> {
    if |lists| != 4 then Failure(WrongSectionCount)
    else
      var found := [Matches(CentarHeadlines[0], lists[0]), Matches(CentarHeadlines[1], lists[1]),
                    Matches(CentarHeadlines[2], lists[2]), Matches(CentarHeadlines[3], lists[3])];
      Success((found, [|found[0]| - 1, |found[1]|, |found[2]|, |found[3]|]))
  }

  /** The inner loops of `update_centar_columns`: every canonical name, against every name of the list. */
  method MatchHeadlines(canon: seq<string>, cols: seq<string>) returns (found: seq<string>)
    ensures found == Matches(canon, cols)
  {
    found := [];
    for j := 0 to |canon|
      invariant found == Matches(canon[..j], cols)
    {
      assert canon[..j + 1][..j] == canon[..j];
      for t := 0 to |cols|
        invariant found == Matches(canon[..j], cols) + Occurrences(canon[j], cols[..t])
      {
        assert cols[..t + 1][..t] == cols[..t];
        if cols[t] == canon[j] {
          found := found + [canon[j]];
        }
      }
      assert cols[..|cols|] == cols;
    }
    assert canon[..|canon|] == canon;
  }

  /** The first loop of `update_centar_columns`: each list of `final` paired with one of `added` becomes their union, in place. */
  method MergeColumnNames(final: array<seq<string>>, added: seq<seq<string>>)
    modifies final
    ensures forall i :: 0 <= i < final.Length ==>
      final[i] == if i < |added| then SetUnion(old(final[i]), added[i]) else old(final[i])
  {
    var n := if final.Length < |added| then final.Length else |added|;
    for i := 0 to n
      invariant forall t :: 0 <= t < final.Length ==>
        final[t] == if t < i then SetUnion(old(final[t]), added[t]) else old(final[t])
    {
      final[i] := SetUnion(final[i], added[i]);
    }
  }

  /** The second loop of `update_centar_columns`: the canonical names of each section looked up in its list. */
  method TallyHeadlines(lists: seq<seq<string>>) returns (r: Result<(seq<seq<string>>, seq<int>), CombineError>)
    ensures r == Tally(lists)
  {
    var found: seq<seq<string>> := [];
    var headlines := CentarHeadlines;
    for index := 0 to |lists|
      invariant index <= |headlines| && |found| == index
      invariant forall t :: 0 <= t < index ==> found[t] == Matches(headlines[t], lists[t])
    {
      if index == |headlines| {
        return Failure(WrongSectionCount);
      }
      var m := MatchHeadlines(headlines[index], lists[index]);
      found := found + [m];
    }
    if |lists| != 4 {
      return Failure(WrongSectionCount);
    }
    assert found == [Matches(headlines[0], lists[0]), Matches(headlines[1], lists[1]),
                     Matches(headlines[2], lists[2]), Matches(headlines[3], lists[3])];
    return Success((found, [|found[0]| - 1, |found[1]|, |found[2]|, |found[3]|]));
  }

  /**
    `update_centar_columns(final, new)`: merges the name lists in place, then tallies the
    canonical names found in them.
   */
  method UpdateCentarColumns(final: array<seq<string>>, added: seq<seq<string>>)
    returns (r: Result<(seq<seq<string>>, seq<int>), CombineError>)
    modifies final
    ensures forall i :: 0 <= i < final.Length ==>
      final[i] == if i < |added| then SetUnion(old(final[i]), added[i]) else old(final[i])
    ensures r == Tally(final[..])
  {
    MergeColumnNames(final, added);
    r := TallyHeadlines(final[..]);
  }

  /**
    Over merged lists, which have no repeats, each section's found names are its canonical
    names present in the list, in canonical order and independent of the list's order; the
    counts are their numbers, less one in the first section.
   */
  lemma TallyFound(lists: seq<seq<string>>, i: nat)
    requires |lists| == 4 && i < 4 && Distinct(lists[i])
    ensures Tally(lists).Success?
    ensures var (found, counts) := Tally(lists).value;
      && found[i] == FilterIn(CentarHeadlines[i], lists[i])
      && counts[i] == |found[i]| - (if i == 0 then 1 else 0)
  {
    MatchesFilter(CentarHeadlines[i], lists[i]);
  }
}
