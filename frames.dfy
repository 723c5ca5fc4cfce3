/**
  The tables the GRiPHin scripts pass around, with pandas abstracted away: a list of column
  names and rows of cells by position. A cell is `None` where pandas holds NaN/NA. A table
  indexed by `UNI` (`set_index('UNI')`) keeps the key in its first column.
 */
module Frames {
  import opened Wrappers

  /** A cell: `None` for a missing value. */
  type Cell = Option<string>

  datatype Frame = Frame(columns: seq<string>, rows: seq<seq<Cell>>)

  /** The key column every GRiPHin table starts with. */
  const Uni: string := "UNI"

  /** Every row has one cell per column. */
  predicate Rect(f: Frame) {
    forall i :: 0 <= i < |f.rows| ==> |f.rows[i]| == |f.columns|
  }

  /** No name (or key) occurs twice. */
  predicate Distinct<T(==)>(xs: seq<T>) {
    forall i, j :: 0 <= i < j < |xs| ==> xs[i] != xs[j]
  }

  /** The cell at position `j`, missing past the end of the row. */
  function At(row: seq<Cell>, j: nat): Cell {
    if j < |row| then row[j] else None
  }

  /** `list.index`: the first position of `x`, or `|xs|` when it is absent. */
  function Find<T(==)>(xs: seq<T>, x: T): (i: nat)
    ensures i <= |xs|
    ensures i < |xs| <==> x in xs
    ensures i < |xs| ==> xs[i] == x
  {
    if xs == [] then 0 else if xs[0] == x then 0 else 1 + Find(xs[1..], x)
  }

  /** No earlier position holds `x`. */
  lemma {:induction false} FindFirst<T>(xs: seq<T>, x: T, k: nat)
    requires k < Find(xs, x)
    ensures xs[k] != x
  {
    if k > 0 {
      FindFirst(xs[1..], x, k - 1);
    }
  }

  /** In a list without repeats, the position of an element is where it stands. */
  lemma FindDistinct<T>(xs: seq<T>, j: nat)
    requires Distinct(xs) && j < |xs|
    ensures Find(xs, xs[j]) == j
  {
    var i := Find(xs, xs[j]);
    if i > j {
      FindFirst(xs, xs[j], j);
    }
  }

  /** Searching two joined lists finds the element in the first if it is there. */
  lemma {:induction false} FindAppend<T>(xs: seq<T>, ys: seq<T>, x: T)
    ensures Find(xs + ys, x) == if x in xs then Find(xs, x) else |xs| + Find(ys, x)
  {
    if xs != [] {
      assert (xs + ys)[1..] == xs[1..] + ys;
      FindAppend(xs[1..], ys, x);
    } else {
      assert xs + ys == ys;
    }
  }

  /** The cell of `row` under the column named `c`, missing when there is no such column. */
  function Lookup(row: seq<Cell>, columns: seq<string>, c: string): Cell {
    At(row, Find(columns, c))
  }

  /** The row's `UNI` value. */
  function Key(row: seq<Cell>): Cell {
    At(row, 0)
  }

  /** The keys of the rows, in order: the table's index. */
  function Keys(rows: seq<seq<Cell>>): (ks: seq<Cell>)
    ensures |ks| == |rows|
  {
    if rows == [] then [] else [Key(rows[0])] + Keys(rows[1..])
  }

  lemma {:induction false} KeysAt(rows: seq<seq<Cell>>, i: nat)
    requires i < |rows|
    ensures Keys(rows)[i] == Key(rows[i])
  {
    if i > 0 {
      KeysAt(rows[1..], i - 1);
    }
  }

  lemma {:induction false} KeysAppend(r1: seq<seq<Cell>>, r2: seq<seq<Cell>>)
    ensures Keys(r1 + r2) == Keys(r1) + Keys(r2)
  {
    if r1 != [] {
      assert (r1 + r2)[1..] == r1[1..] + r2;
      KeysAppend(r1[1..], r2);
    } else {
      assert r1 + r2 == r2;
    }
  }

  /** Row lists with the same number of rows and the same key in each have the same index. */
  lemma SameKeys(rows: seq<seq<Cell>>, rs: seq<seq<Cell>>)
    requires |rows| == |rs| && forall i :: 0 <= i < |rows| ==> Key(rs[i]) == Key(rows[i])
    ensures Keys(rs) == Keys(rows)
  {
    forall i | 0 <= i < |rows| ensures Keys(rs)[i] == Keys(rows)[i] {
      KeysAt(rows, i);
      KeysAt(rs, i);
    }
  }

  /** No key occurs twice. */
  predicate DistinctKeys(rows: seq<seq<Cell>>) {
    Distinct(Keys(rows))
  }

  /** The first row whose key is `k`: `df.loc[k]` on a table indexed by its first column. */
  function RowOf(rows: seq<seq<Cell>>, k: Cell): (r: Option<seq<Cell>>)
    ensures r.Some? <==> k in Keys(rows)
  {
    var i := Find(Keys(rows), k);
    if i < |rows| then Some(rows[i]) else None
  }

  /** Looking a key up in two stacked row lists finds it in the first if it is there. */
  lemma RowOfAppend(r1: seq<seq<Cell>>, r2: seq<seq<Cell>>, k: Cell)
    ensures RowOf(r1 + r2, k) == if RowOf(r1, k).Some? then RowOf(r1, k) else RowOf(r2, k)
  {
    KeysAppend(r1, r2);
    FindAppend(Keys(r1), Keys(r2), k);
  }

  /** With keys that do not repeat, a row's own key finds that row. */
  lemma RowOfDistinct(rows: seq<seq<Cell>>, i: nat)
    requires DistinctKeys(rows) && i < |rows|
    ensures RowOf(rows, Key(rows[i])) == Some(rows[i])
  {
    KeysAt(rows, i);
    FindDistinct(Keys(rows), i);
  }

  /** Looking a key up checks the first row, then the rest. */
  lemma RowOfCons(rows: seq<seq<Cell>>, k: Cell)
    requires |rows| > 0
    ensures RowOf(rows, k) == if Key(rows[0]) == k then Some(rows[0]) else RowOf(rows[1..], k)
  {
    assert Keys(rows) == [Key(rows[0])] + Keys(rows[1..]);
    assert Keys(rows)[1..] == Keys(rows[1..]);
  }

  /** The row found under `k` has key `k`, and it is the row at the key's first position. */
  lemma RowOfKey(rows: seq<seq<Cell>>, k: Cell)
    requires k in Keys(rows)
    ensures var i := Find(Keys(rows), k);
      i < |rows| && RowOf(rows, k) == Some(rows[i]) && Key(rows[i]) == k
  {
    KeysAt(rows, Find(Keys(rows), k));
  }

  /** `df.loc[k, c]` on a table indexed by its first column; missing when the key or the column is absent. */
  function Get(f: Frame, k: Cell, c: string): Cell {
    match RowOf(f.rows, k)
    case None => None
    case Some(row) => Lookup(row, f.columns, c)
  }

  /** `[c for c in ys if c not in xs]`. */
  function NotIn(ys: seq<string>, xs: seq<string>): (r: seq<string>)
    ensures |r| <= |ys|
  {
    if ys == [] then []
    else if ys[0] in xs then NotIn(ys[1..], xs)
    else [ys[0]] + NotIn(ys[1..], xs)
  }

  lemma {:induction false} NotInMembers(ys: seq<string>, xs: seq<string>, c: string)
    ensures c in NotIn(ys, xs) <==> c in ys && c !in xs
  {
    if ys != [] {
      NotInMembers(ys[1..], xs, c);
      assert ys == [ys[0]] + ys[1..];
    }
  }

  /** Filtering keeps a list without repeats free of repeats. */
  lemma {:induction false} NotInDistinct(ys: seq<string>, xs: seq<string>)
    requires Distinct(ys)
    ensures Distinct(NotIn(ys, xs))
  {
    if ys != [] {
      NotInDistinct(ys[1..], xs);
      if ys[0] !in xs {
        var r := NotIn(ys[1..], xs);
        forall j | 0 <= j < |r| ensures r[j] != ys[0] {
          NotInMembers(ys[1..], xs, r[j]);
          assert r[j] in r;
          var t :| 0 <= t < |ys[1..]| && ys[1..][t] == r[j];
          assert ys[t + 1] == r[j];
        }
      }
    }
  }

  /** The first list's names, then the second's names it lacks. */
  function ColumnUnion(xs: seq<string>, ys: seq<string>): seq<string> {
    xs + NotIn(ys, xs)
  }

  /** The union of two lists without repeats has no repeats. */
  lemma ColumnUnionDistinct(xs: seq<string>, ys: seq<string>)
    requires Distinct(xs) && Distinct(ys)
    ensures Distinct(ColumnUnion(xs, ys))
    ensures forall c :: c in ColumnUnion(xs, ys) <==> c in xs || c in ys
  {
    var n := NotIn(ys, xs);
    NotInDistinct(ys, xs);
    var u := xs + n;
    forall i, j | 0 <= i < j < |u| ensures u[i] != u[j] {
      if i < |xs| && j >= |xs| {
        NotInMembers(ys, xs, u[j]);
        assert u[j] == n[j - |xs|] && n[j - |xs|] in n;
        assert u[i] in xs;
      }
    }
    forall c ensures c in u <==> c in xs || c in ys {
      NotInMembers(ys, xs, c);
    }
  }

  /** `row` laid out under the columns `to`: each cell the one under that name, or missing. */
  function ReindexRow(row: seq<Cell>, from: seq<string>, to: seq<string>): (r: seq<Cell>)
    ensures |r| == |to|
  {
    if to == [] then [] else [Lookup(row, from, to[0])] + ReindexRow(row, from, to[1..])
  }

  lemma {:induction false} ReindexRowAt(row: seq<Cell>, from: seq<string>, to: seq<string>, j: nat)
    requires j < |to|
    ensures ReindexRow(row, from, to)[j] == Lookup(row, from, to[j])
  {
    if j > 0 {
      ReindexRowAt(row, from, to[1..], j - 1);
    }
  }

  /** Every row laid out under the columns `to`. */
  function ReindexRows(rows: seq<seq<Cell>>, from: seq<string>, to: seq<string>): (r: seq<seq<Cell>>)
    ensures |r| == |rows|
    ensures forall i :: 0 <= i < |r| ==> |r[i]| == |to|
  {
    if rows == [] then [] else [ReindexRow(rows[0], from, to)] + ReindexRows(rows[1..], from, to)
  }

  lemma {:induction false} ReindexRowsAt(rows: seq<seq<Cell>>, from: seq<string>, to: seq<string>, i: nat)
    requires i < |rows|
    ensures ReindexRows(rows, from, to)[i] == ReindexRow(rows[i], from, to)
  {
    if i > 0 {
      ReindexRowsAt(rows[1..], from, to, i - 1);
    }
  }

  /** Laying rows out under columns with the same first name keeps every key. */
  lemma KeysReindex(rows: seq<seq<Cell>>, from: seq<string>, to: seq<string>)
    requires |from| > 0 && |to| > 0 && from[0] == to[0]
    ensures Keys(ReindexRows(rows, from, to)) == Keys(rows)
  {
    var rs := ReindexRows(rows, from, to);
    forall i | 0 <= i < |rows| ensures Key(rs[i]) == Key(rows[i]) {
      ReindexRowsAt(rows, from, to, i);
      ReindexRowAt(rows[i], from, to, 0);
    }
    SameKeys(rows, rs);
  }

  /**
    `pd.concat([a, b], ignore_index=True)`: the columns of `a`, then those of `b` that `a`
    lacks; the rows of `a`, then those of `b`, each missing where its table had no such column.
   */
  function Concat(a: Frame, b: Frame): (r: Frame)
    ensures Rect(r)
    ensures |r.rows| == |a.rows| + |b.rows|
  {
    var all := ColumnUnion(a.columns, b.columns);
    Frame(all, ReindexRows(a.rows, a.columns, all) + ReindexRows(b.rows, b.columns, all))
  }

  /**
    Concatenation keeps every cell: a row of `a` keeps its cells under its columns, a row of
    `b` keeps its cells under its own columns, and every other cell is missing.
   */
  lemma ConcatCells(a: Frame, b: Frame, i: nat, j: nat)
    requires i < |a.rows| + |b.rows| && j < |Concat(a, b).columns|
    ensures var r := Concat(a, b); var c := r.columns[j];
      r.rows[i][j] == if i < |a.rows| then Lookup(a.rows[i], a.columns, c) else Lookup(b.rows[i - |a.rows|], b.columns, c)
  {
    var all := ColumnUnion(a.columns, b.columns);
    var ra := ReindexRows(a.rows, a.columns, all);
    var rb := ReindexRows(b.rows, b.columns, all);
    assert Concat(a, b).rows == ra + rb;
    if i < |a.rows| {
      ReindexRowsAt(a.rows, a.columns, all, i);
      ReindexRowAt(a.rows[i], a.columns, all, j);
    } else {
      ReindexRowsAt(b.rows, b.columns, all, i - |a.rows|);
      ReindexRowAt(b.rows[i - |a.rows|], b.columns, all, j);
    }
  }

  /** Concatenation keeps every row's cell under every name, given rectangular tables. */
  lemma ConcatLookup(a: Frame, b: Frame, i: nat, c: string)
    requires Rect(a) && Rect(b) && i < |a.rows| + |b.rows|
    ensures var r := Concat(a, b);
      Lookup(r.rows[i], r.columns, c) == if i < |a.rows| then Lookup(a.rows[i], a.columns, c) else Lookup(b.rows[i - |a.rows|], b.columns, c)
  {
    var r := Concat(a, b);
    NotInMembers(b.columns, a.columns, c);
    if c in r.columns {
      ConcatCells(a, b, i, Find(r.columns, c));
    } else if i < |a.rows| {
      LookupAbsent(a.rows[i], a.columns, c);
    } else {
      LookupAbsent(b.rows[i - |a.rows|], b.columns, c);
    }
  }

  /** Under a name a table does not have, a row's cell is missing. */
  lemma LookupAbsent(row: seq<Cell>, columns: seq<string>, c: string)
    requires |row| == |columns| && c !in columns
    ensures Lookup(row, columns, c) == None
  {
  }

  /** Under a name a table has (once), a row's cell is the one in that position. */
  lemma LookupPresent(row: seq<Cell>, columns: seq<string>, j: nat)
    requires |row| == |columns| && Distinct(columns) && j < |columns|
    ensures Lookup(row, columns, columns[j]) == row[j]
  {
    FindDistinct(columns, j);
  }

  /** A row with one more column at the end, missing in that column. */
  function Widen(rows: seq<seq<Cell>>): (r: seq<seq<Cell>>)
    ensures |r| == |rows|
  {
    if rows == [] then [] else [rows[0] + [None]] + Widen(rows[1..])
  }

  lemma {:induction false} WidenAt(rows: seq<seq<Cell>>, i: nat)
    requires i < |rows|
    ensures Widen(rows)[i] == rows[i] + [None]
  {
    if i > 0 {
      WidenAt(rows[1..], i - 1);
    }
  }

  /** `df[col] = pd.NA`: a new last column, missing in every row. */
  function WithBlank(f: Frame, col: string): (r: Frame)
    ensures r.columns == f.columns + [col] && |r.rows| == |f.rows|
  {
    Frame(f.columns + [col], Widen(f.rows))
  }

  /** A blank column keeps the table rectangular and every existing cell in place. */
  lemma WithBlankCells(f: Frame, col: string)
    requires Rect(f)
    ensures Rect(WithBlank(f, col))
    ensures forall i :: 0 <= i < |f.rows| ==> WithBlank(f, col).rows[i] == f.rows[i] + [None]
    ensures Keys(WithBlank(f, col).rows) == Keys(f.rows)
  {
    forall i | 0 <= i < |f.rows| ensures WithBlank(f, col).rows[i] == f.rows[i] + [None] {
      WidenAt(f.rows, i);
    }
    forall i | 0 <= i < |f.rows| ensures Key(WithBlank(f, col).rows[i]) == Key(f.rows[i]) {
      assert WithBlank(f, col).rows[i] == f.rows[i] + [None];
    }
    SameKeys(f.rows, WithBlank(f, col).rows);
  }

  /** Cells of the row keyed `k` after `update`: each takes `other`'s value under the same key and column when that is present. */
  function UpdateCells(cells: seq<Cell>, names: seq<string>, other: Frame, k: Cell): (r: seq<Cell>)
    requires |cells| == |names|
    ensures |r| == |cells|
  {
    if cells == [] then []
    else
      var v := Get(other, k, names[0]);
      [if v.Some? then v else cells[0]] + UpdateCells(cells[1..], names[1..], other, k)
  }

  lemma {:induction false} UpdateCellsAt(cells: seq<Cell>, names: seq<string>, other: Frame, k: Cell, j: nat)
    requires |cells| == |names| && j < |cells|
    ensures var v := Get(other, k, names[j]);
      UpdateCells(cells, names, other, k)[j] == if v.Some? then v else cells[j]
  {
    if j > 0 {
      UpdateCellsAt(cells[1..], names[1..], other, k, j - 1);
    }
  }

  /** A row after `update`: the key stays, the other cells are updated. */
  function UpdateRow(row: seq<Cell>, columns: seq<string>, other: Frame): (r: seq<Cell>)
    requires |row| == |columns|
    ensures |r| == |row|
  {
    if row == [] then [] else [row[0]] + UpdateCells(row[1..], columns[1..], other, row[0])
  }

  /** Every row after `update`. */
  function UpdateRows(rows: seq<seq<Cell>>, columns: seq<string>, other: Frame): (r: seq<seq<Cell>>)
    requires forall i :: 0 <= i < |rows| ==> |rows[i]| == |columns|
    ensures |r| == |rows|
  {
    if rows == [] then []
    else
      var rest := UpdateRows(rows[..|rows| - 1], columns, other);
      rest + [UpdateRow(rows[|rows| - 1], columns, other)]
  }

  lemma {:induction false} UpdateRowsAt(rows: seq<seq<Cell>>, columns: seq<string>, other: Frame, i: nat)
    requires forall i :: 0 <= i < |rows| ==> |rows[i]| == |columns|
    requires i < |rows|
    ensures UpdateRows(rows, columns, other)[i] == UpdateRow(rows[i], columns, other)
  {
    if i < |rows| - 1 {
      UpdateRowsAt(rows[..|rows| - 1], columns, other, i);
    }
  }

  /** `df.update(other)` on tables indexed by their first column. */
  function Updated(f: Frame, other: Frame): (r: Frame)
    requires Rect(f)
    ensures r.columns == f.columns && |r.rows| == |f.rows|
  {
    Frame(f.columns, UpdateRows(f.rows, f.columns, other))
  }

  /**
    After `update` the table keeps its columns, its keys and its shape; past the key, a cell
    takes the other table's value for the same key and column name when that one is present,
    and keeps its own otherwise.
   */
  lemma UpdatedCells(f: Frame, other: Frame, i: nat, j: nat)
    requires Rect(f) && i < |f.rows| && j < |f.columns|
    ensures Rect(Updated(f, other))
    ensures var v := Get(other, Key(f.rows[i]), f.columns[j]);
      Updated(f, other).rows[i][j] == if j > 0 && v.Some? then v else f.rows[i][j]
  {
    forall t | 0 <= t < |f.rows| ensures |Updated(f, other).rows[t]| == |f.columns| {
      UpdateRowsAt(f.rows, f.columns, other, t);
    }
    UpdateRowsAt(f.rows, f.columns, other, i);
    var row := f.rows[i];
    if j > 0 {
      UpdateCellsAt(row[1..], f.columns[1..], other, row[0], j - 1);
    }
  }

  /** `update` keeps every key. */
  lemma KeysUpdated(f: Frame, other: Frame)
    requires Rect(f)
    ensures Keys(Updated(f, other).rows) == Keys(f.rows)
  {
    var rs := Updated(f, other).rows;
    forall i | 0 <= i < |f.rows| ensures Key(rs[i]) == Key(f.rows[i]) {
      UpdateRowsAt(f.rows, f.columns, other, i);
    }
    SameKeys(f.rows, rs);
  }

  /** A table that pandas updates in place. */
  class Table {
    var columns: seq<string>
    var rows: seq<seq<Cell>>

    /** The table's current contents. */
    function Value(): Frame
      reads this
    {
      Frame(columns, rows)
    }

    constructor (f: Frame)
      ensures Value() == f
    {
      columns := f.columns;
      rows := f.rows;
    }

    /** `df[col] = pd.NA`: a new last column, missing in every row. */
    method AddBlankColumn(col: string)
      modifies this
      ensures Value() == WithBlank(old(Value()), col)
    {
      var i := 0;
      var widened: seq<seq<Cell>> := [];
      while i < |rows|
        invariant 0 <= i <= |rows|
        invariant rows == old(rows) && columns == old(columns)
        invariant widened == Widen(rows[..i])
      {
        ghost var pre := rows[..i + 1];
        assert pre[..i] == rows[..i];
        WidenSnoc(pre);
        widened := widened + [rows[i] + [None]];
        i := i + 1;
      }
      assert rows[..i] == rows;
      columns := columns + [col];
      rows := widened;
    }

    /** `df.update(other)`: every row's cells past the key take `other`'s present values. */
    method Update(other: Frame)
      requires Rect(Value())
      modifies this
      ensures Value() == Updated(old(Value()), other)
    {
      var i := 0;
      var updated: seq<seq<Cell>> := [];
      while i < |rows|
        invariant 0 <= i <= |rows|
        invariant updated == UpdateRows(rows[..i], columns, other)
      {
        ghost var pre := rows[..i + 1];
        assert pre[..i] == rows[..i];
        updated := updated + [UpdateRow(rows[i], columns, other)];
        i := i + 1;
      }
      assert rows[..i] == rows;
      rows := updated;
    }
  }

  /** Widening a list with one more row widens that row last. */
  lemma {:induction false} WidenSnoc(rows: seq<seq<Cell>>)
    requires |rows| > 0
    ensures Widen(rows) == Widen(rows[..|rows| - 1]) + [rows[|rows| - 1] + [None]]
  {
    if |rows| > 1 {
      WidenSnoc(rows[1..]);
      assert rows[1..][..|rows| - 2] == rows[..|rows| - 1][1..];
    }
  }
}
