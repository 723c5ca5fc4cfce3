/**
  The species-specific helpers of `species_specific_griphin.py`: reformatting CENTAR
  identity values, cleaning and ordering the CENTAR columns, splitting a sample directory
  into its parent folder and data location, and building the ShigaPass rows.
 */
module SpeciesSpecific {
  import opened Wrappers
  import opened Strings
  import opened Frames

  /** The exceptions the helpers raise. */
  datatype SpeciesError =
    | MissingColumns(names: seq<string>)   // selecting columns the table lacks
    | ShortLine(line: string)              // a ShigaPass line with fewer than ten fields
    | NoOrganismColumn                     // no `ShigaPass_Organism` column to map

  /** `s[:-n]`: all but the last `n` characters, empty when there are fewer. */
  function DropLast(s: string, n: nat): (r: string)
    ensures |s| >= n ==> r == s[..|s| - n]
  {
    if |s| >= n then s[..|s| - n] else ""
  }

  /**
    `transform_value`: a missing value or the all-`NA` triple becomes empty; a
    `nuc|aa|cov` triple is rewritten as `[nucNT/aaAA/cov]G`; anything else is kept.
   */
  function TransformValue(v: Cell): Cell {
    match v
    case None => Some("")
    case Some(s) =>
      if s == "NA|NA|NA" || s == "[NA|NA|NA]" then Some("")
      else
        var parts := Split(s, '|');
        if |parts| != 3 then v
        else
          var nuc := Replace(DropLast(parts[0], 2), "[", "");
          var aa := DropLast(parts[1], 2);
          var cov := Replace(parts[2], "COV]", "");
          Some("[" + nuc + "NT/" + aa + "AA/" + cov + "]G")
  }

  /** A value that does not split into three parts is kept. */
  lemma TransformValueKeeps(s: string)
    requires s != "NA|NA|NA" && s != "[NA|NA|NA]" && |Split(s, '|')| != 3
    ensures TransformValue(Some(s)) == Some(s)
  {
  }

  /** The identity triple CENTAR writes, `[nNT|aAA|cCOV]`. */
  function IdentityTriple(n: string, a: string, c: string): string {
    "[" + n + "NT|" + a + "AA|" + c + "COV]"
  }

  /**
    An identity triple is rewritten to `[nNT/aAA/c]G`: the brackets, the `COV` suffix and
    the bars go, the number parts stay.
   */
  lemma TransformTriple(n: string, a: string, c: string)
    requires '|' !in n && '|' !in a && '|' !in c && '[' !in n && ']' !in c
    ensures TransformValue(Some(IdentityTriple(n, a, c))) == Some("[" + n + "NT/" + a + "AA/" + c + "]G")
  {
    var p0 := "[" + n + "NT";
    var p1 := a + "AA";
    var p2 := c + "COV]";
    var s := IdentityTriple(n, a, c);
    assert s == p0 + ['|'] + p1 + ['|'] + p2 by {
      assert "NT|" == "NT" + ['|'] && "AA|" == "AA" + ['|'];
    }
    JoinThree(p0, p1, p2, '|');
    SplitJoin([p0, p1, p2], '|');
    assert s != "[NA|NA|NA]" by {
      assert s[|p0| - 1] == 'T' && s[|p0|] == '|';
    }
    assert DropLast(p0, 2) == "[" + n;
    assert DropLast(p1, 2) == a;
    MissingChar(n, "[", 0);
    assert ("[" + n)[..1] == "[" && ("[" + n)[1..] == n;
    assert Replace("[" + n, "[", "") == n;
    assert "COV]"[..3] == "COV";
    ReplaceSuffix(c, "COV]");
    assert s != "NA|NA|NA" by {
      assert s[0] == '[';
    }
    var parts := Split(s, '|');
    assert parts == [p0, p1, p2];
    assert "[" + n + "NT/" + a + "AA/" + c + "]G" == "[" + Replace(DropLast(parts[0], 2), "[", "") + "NT/" + DropLast(parts[1], 2) + "AA/" + Replace(parts[2], "COV]", "") + "]G";
  }

  lemma JoinThree(p0: string, p1: string, p2: string, sep: char)
    ensures Join([p0, p1, p2], sep) == p0 + [sep] + p1 + [sep] + p2
  {
    assert [p1, p2][1..] == [p2];
    assert Join([p1, p2], sep) == p1 + [sep] + p2;
    assert [p0, p1, p2][1..] == [p1, p2];
    assert Join([p0, p1, p2], sep) == p0 + [sep] + Join([p1, p2], sep);
  }

  /** The value CENTAR writes for a 98% nucleotide, 98% amino-acid, 100% coverage hit. */
  lemma TransformExample(s: string)
    requires s == "[98NT|98AA|100COV]"
    ensures TransformValue(Some(s)) == Some("[98NT/98AA/100]G")
  {
    assert s == IdentityTriple("98", "98", "100");
    TransformTriple("98", "98", "100");
    ExampleText();
  }

  lemma ExampleText()
    ensures "[" + "98" + "NT/" + "98" + "AA/" + "100" + "]G" == "[98NT/98AA/100]G"
  {
    assert "[" + "98" + "NT/" == "[98NT/";
    assert "98" + "AA/" + "100" + "]G" == "98AA/100]G";
  }

  /** Missing values and the all-`NA` triples become the empty string. */
  lemma TransformBlank()
    ensures TransformValue(None) == Some("")
    ensures TransformValue(Some("NA|NA|NA")) == Some("") && TransformValue(Some("[NA|NA|NA]")) == Some("")
  {
  }

  /** Rewriting is idempotent: a rewritten value has no bar left, so a second pass keeps it. */
  lemma TransformIdempotent(v: Cell)
    ensures TransformValue(TransformValue(v)) == TransformValue(v)
  {
    match v
    case None =>
      assert Split("", '|') == [""];
    case Some(s) =>
      if s == "NA|NA|NA" || s == "[NA|NA|NA]" {
        assert Split("", '|') == [""];
      } else {
        var parts := Split(s, '|');
        if |parts| == 3 {
          var nuc := Replace(DropLast(parts[0], 2), "[", "");
          var aa := DropLast(parts[1], 2);
          var cov := Replace(parts[2], "COV]", "");
          var o := "[" + nuc + "NT/" + aa + "AA/" + cov + "]G";
          ReplaceChars(DropLast(parts[0], 2), "[", '|');
          ReplaceChars(parts[2], "COV]", '|');
          assert '|' !in aa;
          assert '|' !in o;
          SplitPlain(o, '|');
          assert o != "NA|NA|NA" by {
            assert "NA|NA|NA"[2] == '|';
          }
          assert o != "[NA|NA|NA]" by {
            assert "[NA|NA|NA]"[3] == '|';
          }
        }
      }
  }

  /** The substring that marks a column of identity triples. */
  const IdentityMark: string := "[%Nuc_Identity"

  /** Every row with its cell in position `j` passed through `fn`. */
  function MapColumn(rows: seq<seq<Cell>>, j: nat, fn: Cell -> Cell): (r: seq<seq<Cell>>)
    ensures |r| == |rows|
  {
    if rows == [] then []
    else [if j < |rows[0]| then rows[0][j := fn(rows[0][j])] else rows[0]] + MapColumn(rows[1..], j, fn)
  }

  lemma {:induction false} MapColumnAt(rows: seq<seq<Cell>>, j: nat, fn: Cell -> Cell, i: nat)
    requires i < |rows|
    ensures MapColumn(rows, j, fn)[i] == if j < |rows[i]| then rows[i][j := fn(rows[i][j])] else rows[i]
  {
    if i > 0 {
      MapColumnAt(rows[1..], j, fn, i - 1);
    }
  }

  /** The table once the identity columns among its first `j` columns have been rewritten. */
  function TransformedUpTo(f: Frame, j: nat): (r: Frame)
    requires j <= |f.columns|
    ensures r.columns == f.columns && |r.rows| == |f.rows|
  {
    if j == 0 then f
    else
      var g := TransformedUpTo(f, j - 1);
      if Contains(f.columns[j - 1], IdentityMark) then Frame(g.columns, MapColumn(g.rows, j - 1, TransformValue)) else g
  }

  /**
    After the rewriting loop each row keeps its length; a cell of an identity column is
    rewritten by `transform_value`, every other cell is kept.
   */
  lemma {:induction false} TransformedCells(f: Frame, j: nat, i: nat, k: nat)
    requires Rect(f) && j <= |f.columns| && i < |f.rows| && k < |f.columns|
    ensures |TransformedUpTo(f, j).rows[i]| == |f.columns|
    ensures TransformedUpTo(f, j).rows[i][k] == if k < j && Contains(f.columns[k], IdentityMark) then TransformValue(f.rows[i][k]) else f.rows[i][k]
  {
    if j > 0 {
      TransformedCells(f, j - 1, i, k);
      var g := TransformedUpTo(f, j - 1);
      if Contains(f.columns[j - 1], IdentityMark) {
        MapColumnAt(g.rows, j - 1, TransformValue, i);
      }
    }
  }

  /** The loop of `clean_and_format_centar_dfs` that rewrites every identity column of the caller's table in place. */
  method TransformIdentityColumns(df: Table)
    modifies df
    ensures df.Value() == TransformedUpTo(old(df.Value()), |old(df.columns)|)
  {
    for j := 0 to |df.columns|
      invariant df.columns == old(df.columns)
      invariant df.Value() == TransformedUpTo(old(df.Value()), j)
    {
      if Contains(df.columns[j], IdentityMark) {
        df.rows := MapColumn(df.rows, j, TransformValue);
      }
    }
  }

  /** The elements whose mark is set: what dropping columns does to the names and to each row. */
  function Keep<T>(xs: seq<T>, mask: seq<bool>): seq<T> {
    if xs == [] || mask == [] then []
    else (if mask[0] then [xs[0]] else []) + Keep(xs[1..], mask[1..])
  }

  /** Every row with the same columns dropped. */
  function KeepRows(rows: seq<seq<Cell>>, mask: seq<bool>): (r: seq<seq<Cell>>)
    ensures |r| == |rows|
  {
    if rows == [] then [] else [Keep(rows[0], mask)] + KeepRows(rows[1..], mask)
  }

  lemma {:induction false} KeepRowsAt(rows: seq<seq<Cell>>, mask: seq<bool>, i: nat)
    requires i < |rows|
    ensures KeepRows(rows, mask)[i] == Keep(rows[i], mask)
  {
    if i > 0 {
      KeepRowsAt(rows[1..], mask, i - 1);
    }
  }

  /** Names and a row of the same length keep the same number of entries. */
  lemma {:induction false} KeepSameLength(cols: seq<string>, row: seq<Cell>, mask: seq<bool>)
    requires |cols| == |row| == |mask|
    ensures |Keep(cols, mask)| == |Keep(row, mask)|
  {
    if cols != [] {
      KeepSameLength(cols[1..], row[1..], mask[1..]);
    }
  }

  /** A name is kept exactly when it stands in a marked position. */
  lemma {:induction false} KeepMembers(cols: seq<string>, mask: seq<bool>, c: string)
    requires |cols| == |mask|
    ensures c in Keep(cols, mask) <==> exists t :: 0 <= t < |cols| && cols[t] == c && mask[t]
  {
    if cols != [] {
      KeepMembers(cols[1..], mask[1..], c);
      if c in Keep(cols[1..], mask[1..]) {
        var t :| 0 <= t < |cols[1..]| && cols[1..][t] == c && mask[1..][t];
        assert cols[t + 1] == c && mask[t + 1];
      }
      if exists t :: 0 <= t < |cols| && cols[t] == c && mask[t] {
        var t :| 0 <= t < |cols| && cols[t] == c && mask[t];
        if t > 0 {
          assert cols[1..][t - 1] == c && mask[1..][t - 1];
        }
      }
    }
  }

  /** Looking past a first column of another name looks in the rest of the row. */
  lemma LookupCons(row: seq<Cell>, cols: seq<string>, c: string)
    requires |row| > 0 && |cols| > 0 && cols[0] != c
    ensures Lookup(row, cols, c) == Lookup(row[1..], cols[1..], c)
  {
  }

  /** Dropping columns keeps each remaining cell under its name, when every column of that name is kept. */
  lemma {:induction false} KeepLookup(row: seq<Cell>, cols: seq<string>, mask: seq<bool>, c: string)
    requires |row| == |cols| == |mask|
    requires forall t :: 0 <= t < |cols| && cols[t] == c ==> mask[t]
    ensures Lookup(Keep(row, mask), Keep(cols, mask), c) == Lookup(row, cols, c)
  {
    if cols != [] && cols[0] != c {
      KeepLookup(row[1..], cols[1..], mask[1..], c);
      if mask[0] {
        var kc := Keep(cols, mask);
        var kr := Keep(row, mask);
        assert kc == [cols[0]] + Keep(cols[1..], mask[1..]);
        assert kr == [row[0]] + Keep(row[1..], mask[1..]);
        assert kc[0] != c && kc[1..] == Keep(cols[1..], mask[1..]) && kr[1..] == Keep(row[1..], mask[1..]);
        LookupCons(kr, kc, c);
      } else {
        assert Keep(cols, mask) == Keep(cols[1..], mask[1..]);
        assert Keep(row, mask) == Keep(row[1..], mask[1..]);
      }
      LookupCons(row, cols, c);
    }
  }

  /** The mark of each name: set when it does not contain `sub`. */
  function NameMask(cols: seq<string>, sub: string): (m: seq<bool>)
    ensures |m| == |cols|
    ensures forall t :: 0 <= t < |cols| ==> (m[t] <==> !Contains(cols[t], sub))
  {
    if cols == [] then [] else [!Contains(cols[0], sub)] + NameMask(cols[1..], sub)
  }

  /** `drop(columns=[c for c in columns if 'presence' in c])`. */
  function DropPresence(f: Frame): Frame {
    var m := NameMask(f.columns, "presence");
    Frame(Keep(f.columns, m), KeepRows(f.rows, m))
  }

  /**
    Dropping the presence/absence columns keeps exactly the names without `presence`, keeps
    the table rectangular, and keeps every remaining cell under its name.
   */
  lemma DropPresenceSpec(f: Frame, c: string)
    requires Rect(f)
    ensures var d := DropPresence(f);
      && Rect(d) && |d.rows| == |f.rows|
      && (c in d.columns <==> c in f.columns && !Contains(c, "presence"))
      && (c in d.columns ==> forall i :: 0 <= i < |f.rows| ==> Lookup(d.rows[i], d.columns, c) == Lookup(f.rows[i], f.columns, c))
  {
    var m := NameMask(f.columns, "presence");
    var d := DropPresence(f);
    forall i | 0 <= i < |f.rows| ensures |d.rows[i]| == |d.columns| {
      KeepRowsAt(f.rows, m, i);
      KeepSameLength(f.columns, f.rows[i], m);
    }
    KeepMembers(f.columns, m, c);
    if c in d.columns {
      forall i | 0 <= i < |f.rows| ensures Lookup(d.rows[i], d.columns, c) == Lookup(f.rows[i], f.columns, c) {
        KeepRowsAt(f.rows, m, i);
        KeepLookup(f.rows[i], f.columns, m, c);
      }
    }
  }

  /** The header suffix of a triple column. */
  const TripleHeader: string := "[%Nuc_Identity | %AA_Identity | %Coverage]"

  /** The two alternatives of the second header pattern, which is not escaped in the script. */
  const NucOnly: string := "[%Nuc_Identity "
  const CoverageOnly: string := " %Coverage]"

  /**
    `re.sub('p|q', '', s)` for two literal alternatives: at each position the first alternative
    is tried, then the second, and the scan resumes after a removed match.
   */
  function RemoveEither(s: string, p: string, q: string): (r: string)
    ensures |r| <= |s|
    decreases |s|
  {
    if |s| == 0 then ""
    else if |p| > 0 && StartsWith(s, p) then RemoveEither(s[|p|..], p, q)
    else if |q| > 0 && StartsWith(s, q) then RemoveEither(s[|q|..], p, q)
    else [s[0]] + RemoveEither(s[1..], p, q)
  }

  /** The three header renamings, each followed by `strip()`. */
  function CleanHeader(x: string): string {
    var a := StripSpace(Replace(x, TripleHeader, ""));
    var b := StripSpace(RemoveEither(a, NucOnly, CoverageOnly));
    StripSpace(Replace(b, "Diffbase_", ""))
  }

  /** Every header renamed. */
  function CleanHeaders(cols: seq<string>): (r: seq<string>)
    ensures |r| == |cols| && forall t :: 0 <= t < |cols| ==> r[t] == CleanHeader(cols[t])
  {
    seq(|cols|, t requires 0 <= t < |cols| => CleanHeader(cols[t]))
  }

  /** `replace('', np.nan)` on one cell. */
  function BlankCell(c: Cell): (r: Cell)
    ensures r == None <==> c == None || c == Some("")
    ensures r != None ==> r == c
  {
    if c == Some("") then None else c
  }

  /** `replace('', np.nan)` on every cell. */
  function BlankRows(rows: seq<seq<Cell>>): (r: seq<seq<Cell>>)
    ensures |r| == |rows|
    ensures forall i :: 0 <= i < |rows| ==> |r[i]| == |rows[i]| && forall k :: 0 <= k < |rows[i]| ==> r[i][k] == BlankCell(rows[i][k])
  {
    seq(|rows|, i requires 0 <= i < |rows| => seq(|rows[i]|, k requires 0 <= k < |rows[i]| => BlankCell(rows[i][k])))
  }

  /** Whether some row holds a value in position `j`. */
  predicate HasValue(rows: seq<seq<Cell>>, j: nat) {
    exists i :: 0 <= i < |rows| && At(rows[i], j).Some?
  }

  /** The mark of each of `n` positions: set when the column is not blank throughout (`dropna(axis=1, how='all')`). */
  function ValueMask(rows: seq<seq<Cell>>, n: nat): (m: seq<bool>)
    ensures |m| == n && forall j :: 0 <= j < n ==> m[j] == HasValue(rows, j)
  {
    seq(n, j requires 0 <= j < n => HasValue(rows, j))
  }

  /** Empty strings made blank, then the columns that are blank in every row dropped. */
  function DropBlankColumns(f: Frame): Frame {
    var rows := BlankRows(f.rows);
    var m := ValueMask(rows, |f.columns|);
    Frame(Keep(f.columns, m), KeepRows(rows, m))
  }

  /** The CENTAR table after the presence columns are dropped, the headers renamed and the blank columns dropped. */
  function Cleaned(f: Frame): Frame {
    var d := DropPresence(f);
    DropBlankColumns(Frame(CleanHeaders(d.columns), d.rows))
  }

  /**
    A column survives the blank-column drop exactly when some row holds a non-empty value in
    it; the table stays rectangular and each surviving cell is the original with empty
    strings made blank.
   */
  lemma DropBlankSpec(f: Frame, c: string)
    requires Rect(f) && Distinct(f.columns)
    ensures var d := DropBlankColumns(f);
      && Rect(d) && |d.rows| == |f.rows|
      && (c in d.columns <==> c in f.columns && HasValue(BlankRows(f.rows), Find(f.columns, c)))
      && (c in d.columns ==> forall i :: 0 <= i < |f.rows| ==> Lookup(d.rows[i], d.columns, c) == BlankCell(Lookup(f.rows[i], f.columns, c)))
  {
    var rows := BlankRows(f.rows);
    var m := ValueMask(rows, |f.columns|);
    var d := DropBlankColumns(f);
    forall i | 0 <= i < |f.rows| ensures |d.rows[i]| == |d.columns| {
      KeepRowsAt(rows, m, i);
      KeepSameLength(f.columns, rows[i], m);
    }
    KeepMembers(f.columns, m, c);
    if c in f.columns {
      var t0 := Find(f.columns, c);
      forall t | 0 <= t < |f.columns| && f.columns[t] == c ensures t == t0 {
        FindDistinct(f.columns, t);
      }
    }
    if c in d.columns {
      forall i | 0 <= i < |f.rows| ensures Lookup(d.rows[i], d.columns, c) == BlankCell(Lookup(f.rows[i], f.columns, c)) {
        KeepRowsAt(rows, m, i);
        KeepLookup(rows[i], f.columns, m, c);
      }
    }
  }

  /** Whether the name contains one of the substrings. */
  predicate AnyIn(c: string, subs: seq<string>) {
    exists k :: 0 <= k < |subs| && Contains(c, subs[k])
  }

  /** `[col for col in cols if any(sub in col for sub in subs)]`. */
  function Category(cols: seq<string>, subs: seq<string>): seq<string> {
    if cols == [] then []
    else (if AnyIn(cols[0], subs) then [cols[0]] else []) + Category(cols[1..], subs)
  }

  /** A category holds exactly the names that contain one of its substrings, each once when the names are distinct. */
  lemma {:induction false} CategoryMembers(cols: seq<string>, subs: seq<string>, x: string)
    ensures x in Category(cols, subs) <==> x in cols && AnyIn(x, subs)
    ensures Distinct(cols) ==> Distinct(Category(cols, subs))
  {
    if cols != [] {
      CategoryMembers(cols[1..], subs, x);
      CategoryMembers(cols[1..], subs, cols[0]);
      assert cols == [cols[0]] + cols[1..];
    }
  }

  /** `list.remove(x)` when `x` is present: its first occurrence removed. */
  function RemoveFirst(xs: seq<string>, x: string): (r: seq<string>)
    ensures x !in xs ==> r == xs
  {
    if xs == [] then []
    else if xs[0] == x then xs[1..]
    else [xs[0]] + RemoveFirst(xs[1..], x)
  }

  /** `list.remove(x)` cuts out the first occurrence of `x`, at `k`, and nothing else. */
  lemma {:induction false} RemoveFirstSplice(xs: seq<string>, x: string, k: nat)
    requires k < |xs| && xs[k] == x && x !in xs[..k]
    ensures RemoveFirst(xs, x) == xs[..k] + xs[k + 1..]
  {
    if k > 0 {
      assert xs[0] in xs[..k];
      assert xs[1..][..k - 1] == xs[1..k];
      RemoveFirstSplice(xs[1..], x, k - 1);
      assert xs[..k] == [xs[0]] + xs[1..k];
      assert xs[k + 1..] == xs[1..][k..];
    }
  }

  const RibotypeNames: seq<string> := ["CEMB RT Crosswalk", "Inferred RT", "Probability", "ML Note", "Plasmid Info"]
  const AbToxNames: seq<string> := ["Toxinotype", "Toxin-A_sub-type", "tcdA", "Toxin-B_sub-type", "tcdB"]
  const OtherToxNames: seq<string> := ["tcdC", "tcdR", "tcdE", "cdtA", "cdtB", "cdtR", "cdtAB1", "cdtAB2", "non-tox", "PaLoc"]
  const MutantNames: seq<string> := ["gyr", "dac", "feo", "fur", "gdp", "gly", "hem", "hsm", "Isc", "mur", "mur", "nifJ", "PNim", "rpo", "sda", "thi", "Van", "mutations"]

  /** The three "other mutations" columns that belong to the toxin section rather than the mutations section. */
  const ToxinMutations: seq<string> := ["tcdC other mutations", "cdtR other mutations", "PaLoc_NonTox other mutations"]

  /** The four column groups of the CENTAR section, in table order. */
  datatype Sections = Sections(abTox: seq<string>, otherTox: seq<string>, mutations: seq<string>, ribotype: seq<string>)

  function Sectioned(cols: seq<string>): Sections {
    var m := Category(cols, MutantNames);
    var m := RemoveFirst(m, ToxinMutations[0]);
    var m := RemoveFirst(m, ToxinMutations[1]);
    var m := RemoveFirst(m, ToxinMutations[2]);
    Sections(Category(cols, AbToxNames), Category(cols, OtherToxNames), m, Category(cols, RibotypeNames))
  }

  /** The order of the output columns. */
  function ColumnOrder(s: Sections): seq<string> {
    ["UNI", "MLST Clade"] + s.abTox + s.otherTox + s.mutations + s.ribotype
  }

  /** The reordered CENTAR table and the sizes of its four groups. */
  datatype Formatted = Formatted(table: Frame, abToxLen: nat, otherToxLen: nat, mutantLen: nat, ribotypeLen: nat)

  /**
    The cleaning and reordering that follow the identity rewrite in `clean_and_format_centar_dfs`:
    an empty cleaned table becomes a header-only table; otherwise selecting a missing column fails.
   */
  function FormatCentar(f: Frame): Result<Formatted, SpeciesError> {
    var c := Cleaned(f);
    var s := Sectioned(c.columns);
    var order := ColumnOrder(s);
    if |c.rows| == 0 || |c.columns| == 0 then
      Success(Formatted(Frame(order, []), |s.abTox|, |s.otherTox|, |s.mutations|, |s.ribotype|))
    else if NotIn(order, c.columns) != [] then
      Failure(MissingColumns(NotIn(order, c.columns)))
    else
      Success(Formatted(Frame(order, ReindexRows(c.rows, c.columns, order)), |s.abTox|, |s.otherTox|, |s.mutations|, |s.ribotype|))
  }

  /** The four column groups of the cleaned table, the mutation group without the toxin mutation columns. */
  method SectionColumns(cols: seq<string>) returns (s: Sections)
    ensures s == Sectioned(cols)
  {
    var ribotype := Category(cols, RibotypeNames);
    var abTox := Category(cols, AbToxNames);
    var otherTox := Category(cols, OtherToxNames);
    var mutations := Category(cols, MutantNames);
    if ToxinMutations[0] in mutations {
      mutations := RemoveFirst(mutations, ToxinMutations[0]);
    }
    if ToxinMutations[1] in mutations {
      mutations := RemoveFirst(mutations, ToxinMutations[1]);
    }
    if ToxinMutations[2] in mutations {
      mutations := RemoveFirst(mutations, ToxinMutations[2]);
    }
    s := Sections(abTox, otherTox, mutations, ribotype);
  }

  /** Selecting a table's own columns misses none of them. */
  lemma NotInSelf(xs: seq<string>)
    ensures NotIn(xs, xs) == []
  {
    var r := NotIn(xs, xs);
    if r != [] {
      NotInMembers(xs, xs, r[0]);
    }
  }

  /**
    `clean_and_format_centar_dfs`: rewrites the identity columns of the caller's table in place,
    then returns the cleaned, reordered copy and its group sizes.
   */
  method CleanAndFormatCentar(df: Table) returns (r: Result<Formatted, SpeciesError>)
    modifies df
    ensures df.Value() == TransformedUpTo(old(df.Value()), |old(df.columns)|)
    ensures r == FormatCentar(df.Value())
  {
    TransformIdentityColumns(df);
    var clean := Cleaned(df.Value());
    var sections := SectionColumns(clean.columns);
    var order := ColumnOrder(sections);
    var lens := (|sections.abTox|, |sections.otherTox|, |sections.mutations|, |sections.ribotype|);
    if |clean.rows| == 0 || |clean.columns| == 0 {
      clean := Frame(order, []);
      NotInSelf(order);
    }
    var missing := NotIn(order, clean.columns);
    if missing != [] {
      r := Failure(MissingColumns(missing));
    } else {
      r := Success(Formatted(Frame(order, ReindexRows(clean.rows, clean.columns, order)), lens.0, lens.1, lens.2, lens.3));
    }
  }

  /** Removing a name from distinct names removes exactly that name. */
  lemma {:induction false} RemoveFirstMembers(xs: seq<string>, x: string, y: string)
    requires Distinct(xs)
    ensures y in RemoveFirst(xs, x) <==> y in xs && y != x
  {
    if xs != [] && xs[0] != x {
      RemoveFirstMembers(xs[1..], x, y);
      assert xs == [xs[0]] + xs[1..];
    } else if xs != [] {
      assert xs == [xs[0]] + xs[1..];
    }
  }

  /** Removing a name from distinct names keeps them distinct. */
  lemma {:induction false} RemoveFirstDistinct(xs: seq<string>, x: string)
    requires Distinct(xs)
    ensures Distinct(RemoveFirst(xs, x))
  {
    if xs != [] && xs[0] != x {
      var t := RemoveFirst(xs[1..], x);
      RemoveFirstDistinct(xs[1..], x);
      RemoveFirstMembers(xs[1..], x, xs[0]);
      var r := [xs[0]] + t;
      forall i, j | 0 <= i < j < |r| ensures r[i] != r[j] {
        if i == 0 {
          assert r[j] == t[j - 1];
        }
      }
    }
  }

  /** Over distinct names, the A/B-toxin, other-toxin and ribotype groups hold exactly the names that contain one of their substrings, each once. */
  lemma SectionedMembers(cols: seq<string>, x: string)
    requires Distinct(cols)
    ensures var s := Sectioned(cols);
      && (x in s.abTox <==> x in cols && AnyIn(x, AbToxNames))
      && (x in s.otherTox <==> x in cols && AnyIn(x, OtherToxNames))
      && (x in s.ribotype <==> x in cols && AnyIn(x, RibotypeNames))
      && Distinct(s.abTox) && Distinct(s.otherTox) && Distinct(s.ribotype)
  {
    CategoryMembers(cols, AbToxNames, x);
    CategoryMembers(cols, OtherToxNames, x);
    CategoryMembers(cols, RibotypeNames, x);
  }

  /** Over distinct names, the mutation group holds the names with a mutation substring except the three toxin mutation columns, each once. */
  lemma MutationsMembers(cols: seq<string>, x: string)
    requires Distinct(cols)
    ensures var m := Sectioned(cols).mutations;
      && (x in m <==> x in cols && AnyIn(x, MutantNames) && x !in ToxinMutations)
      && Distinct(m)
  {
    CategoryMembers(cols, MutantNames, x);
    var m0 := Category(cols, MutantNames);
    var m1 := RemoveFirst(m0, ToxinMutations[0]);
    var m2 := RemoveFirst(m1, ToxinMutations[1]);
    RemoveFirstMembers(m0, ToxinMutations[0], x);
    RemoveFirstDistinct(m0, ToxinMutations[0]);
    RemoveFirstMembers(m1, ToxinMutations[1], x);
    RemoveFirstDistinct(m1, ToxinMutations[1]);
    RemoveFirstMembers(m2, ToxinMutations[2], x);
    RemoveFirstDistinct(m2, ToxinMutations[2]);
    assert x in ToxinMutations <==> x == ToxinMutations[0] || x == ToxinMutations[1] || x == ToxinMutations[2];
  }

  /**
    A formatted table has the ordered columns, `UNI` and `MLST Clade` first, one row per
    cleaned row (none when the cleaned table is empty), rows of the right width, and the
    group sizes of its column order.
   */
  lemma FormatCentarShape(f: Frame)
    requires FormatCentar(f).Success?
    ensures var out := FormatCentar(f).value; var c := Cleaned(f); var s := Sectioned(c.columns);
      && out.table.columns == ColumnOrder(s)
      && out.table.columns[..2] == ["UNI", "MLST Clade"]
      && Rect(out.table)
      && |out.table.rows| == (if |c.columns| == 0 then 0 else |c.rows|)
      && out.abToxLen == |s.abTox| && out.otherToxLen == |s.otherTox| && out.mutantLen == |s.mutations| && out.ribotypeLen == |s.ribotype|
      && |out.table.columns| == 2 + out.abToxLen + out.otherToxLen + out.mutantLen + out.ribotypeLen
  {
  }

  /** Each cell of a non-empty formatted table is the cleaned table's cell under the same column name. */
  lemma FormatCentarCells(f: Frame, i: nat, j: nat)
    requires FormatCentar(f).Success?
    requires var c := Cleaned(f); |c.columns| > 0 && i < |c.rows| && j < |ColumnOrder(Sectioned(c.columns))|
    ensures var out := FormatCentar(f).value; var c := Cleaned(f);
      out.table.rows[i][j] == Lookup(c.rows[i], c.columns, out.table.columns[j])
  {
    var c := Cleaned(f);
    var order := ColumnOrder(Sectioned(c.columns));
    ReindexRowsAt(c.rows, c.columns, order, i);
    ReindexRowAt(c.rows[i], c.columns, order, j);
  }

  /** Formatting fails exactly when the cleaned table is not empty and lacks some ordered column; the error lists those columns. */
  lemma FormatCentarFails(f: Frame, x: string)
    ensures var c := Cleaned(f); var order := ColumnOrder(Sectioned(c.columns));
      FormatCentar(f).Failure? <==> |c.rows| > 0 && |c.columns| > 0 && exists y :: y in order && y !in c.columns
    ensures var c := Cleaned(f); var order := ColumnOrder(Sectioned(c.columns));
      FormatCentar(f).Failure? ==> FormatCentar(f).error.MissingColumns? && (x in FormatCentar(f).error.names <==> x in order && x !in c.columns)
  {
    var c := Cleaned(f);
    var order := ColumnOrder(Sectioned(c.columns));
    var missing := NotIn(order, c.columns);
    NotInMembers(order, c.columns, x);
    if missing != [] {
      NotInMembers(order, c.columns, missing[0]);
    }
    if exists y :: y in order && y !in c.columns {
      var y :| y in order && y !in c.columns;
      NotInMembers(order, c.columns, y);
    }
  }

  /** A position where neither alternative starts keeps its character. */
  lemma RemoveEitherStep(s: string, p: string, q: string)
    requires |s| > 0 && |p| > 0 && |q| > 0 && !StartsWith(s, p) && !StartsWith(s, q)
    ensures RemoveEither(s, p, q) == [s[0]] + RemoveEither(s[1..], p, q)
  {
  }

  /** A character that starts neither alternative is kept. */
  lemma RemoveEitherKeep(s: string, p: string, q: string)
    requires |s| > 0 && |p| > 0 && |q| > 0 && s[0] != p[0] && s[0] != q[0]
    ensures RemoveEither(s, p, q) == [s[0]] + RemoveEither(s[1..], p, q)
  {
    assert |p| <= |s| ==> s[..|p|][0] != p[0];
    assert |q| <= |s| ==> s[..|q|][0] != q[0];
    RemoveEitherStep(s, p, q);
  }

  /** Text holding neither alternative's first character is left alone. */
  lemma {:induction false} RemoveEitherAbsent(s: string, p: string, q: string)
    requires |p| > 0 && |q| > 0 && p[0] !in s && q[0] !in s
    ensures RemoveEither(s, p, q) == s
    decreases |s|
  {
    if |s| > 0 {
      RemoveEitherKeep(s, p, q);
      RemoveEitherAbsent(s[1..], p, q);
      assert [s[0]] + s[1..] == s;
    }
  }

  /** The triple-column header and a suffix-free header are cleaned to the bare gene name. */
  lemma {:induction false} CleanTripleHeader(gene: string)
    requires gene != [] && gene[0] !in Whitespace && gene[|gene| - 1] !in Whitespace
    requires ']' !in gene && '[' !in gene && ' ' !in gene && 'D' !in gene
    ensures CleanHeader(gene + " " + TripleHeader) == gene
  {
    assert ']' !in TripleHeader[..|TripleHeader| - 1];
    ReplaceSuffix(gene + " ", TripleHeader);
    assert StripSpace(gene + " ") == gene by {
      TrimUnchanged(gene, Whitespace);
      assert TrimLeft(gene + " ", Whitespace) == gene + " ";
      assert (gene + " ")[..|gene|] == gene;
    }
    RemoveEitherAbsent(gene, NucOnly, CoverageOnly);
    MissingChar(gene, "Diffbase_", 0);
    TrimUnchanged(gene, Whitespace);
  }

  /** A match of the first alternative is removed. */
  lemma RemoveEitherFirst(s: string, p: string, q: string)
    requires |s| > 0 && |p| > 0 && StartsWith(s, p)
    ensures RemoveEither(s, p, q) == RemoveEither(s[|p|..], p, q)
  {
  }

  /** A match of the second alternative, where the first does not match, is removed. */
  lemma RemoveEitherSecond(s: string, p: string, q: string)
    requires |s| > 0 && |q| > 0 && !StartsWith(s, p) && StartsWith(s, q)
    ensures RemoveEither(s, p, q) == RemoveEither(s[|q|..], p, q)
  {
  }

  /** What a pattern of two alternatives leaves of a space, the first, a bar and the second: the space and the bar. */
  lemma RemoveBetween(p: string, q: string)
    requires |p| > 0 && |q| > 1 && p[0] == '[' && q[0] == ' ' && q[1] != '['
    ensures RemoveEither(" " + p + "|" + q, p, q) == " |"
  {
    var tail := "|" + q;
    var rest := " " + p + tail;
    assert rest == " " + p + "|" + q;
    assert !StartsWith(rest, q) by {
      assert |q| <= |rest| ==> rest[..|q|][1] == rest[1] == p[0];
    }
    assert !StartsWith(rest, p) by {
      assert |p| <= |rest| ==> rest[..|p|][0] == ' ';
    }
    RemoveEitherStep(rest, p, q);
    var a := p + tail;
    assert rest[1..] == a;
    assert a[..|p|] == p && a[|p|..] == tail;
    RemoveEitherFirst(a, p, q);
    RemoveBar(p, q);
  }

  /** The bar before the second alternative is kept and the alternative removed. */
  lemma RemoveBar(p: string, q: string)
    requires |p| > 0 && |q| > 1 && p[0] == '[' && q[0] == ' '
    ensures RemoveEither("|" + q, p, q) == "|"
  {
    var tail := "|" + q;
    RemoveEitherKeep(tail, p, q);
    assert tail[1..] == q;
    assert !StartsWith(q, p) by {
      assert |p| <= |q| ==> q[..|p|][0] == ' ';
    }
    assert q[..|q|] == q && q[|q|..] == "";
    RemoveEitherSecond(q, p, q);
  }

  /** The characters of the header patterns the header lemmas rely on. */
  lemma HeaderPatterns()
    ensures |TripleHeader| > 18 && TripleHeader[18] == 'A'
    ensures |NucOnly| > 0 && NucOnly[0] == '[' && 'A' !in NucOnly && 'D' !in NucOnly
    ensures |CoverageOnly| > 1 && CoverageOnly[0] == ' ' && CoverageOnly[1] == '%' && 'A' !in CoverageOnly && 'D' !in CoverageOnly
  {
  }

  /**
    The second header pattern is not escaped, so it removes `[%Nuc_Identity ` and
    ` %Coverage]` separately and leaves the bar: a nucleotide-and-coverage header such as
    that of PNimB is cleaned to the gene name followed by ` |`.
   */
  lemma CleanNucCoverageHeader(gene: string)
    requires gene != [] && gene[0] !in Whitespace
    requires '[' !in gene && ' ' !in gene && 'A' !in gene && 'D' !in gene
    ensures CleanHeader(gene + " " + NucOnly + "|" + CoverageOnly) == gene + " |"
  {
    var x := gene + " " + NucOnly + "|" + CoverageOnly;
    assert Replace(x, TripleHeader, "") == x && StripSpace(x) == x by {
      NucCoverageUntouched(gene);
    }
    assert RemoveEither(x, NucOnly, CoverageOnly) == gene + " |" by {
      var rest := " " + NucOnly + "|" + CoverageOnly;
      assert x == gene + rest;
      HeaderPatterns();
      RemoveEitherPrefix(gene, rest, NucOnly, CoverageOnly);
      RemoveBetween(NucOnly, CoverageOnly);
    }
    var y := gene + " |";
    TrimUnchanged(y, Whitespace);
    MissingChar(y, "Diffbase_", 0);
  }

  /** The first header pattern and the first strip leave a nucleotide-and-coverage header alone. */
  lemma NucCoverageUntouched(gene: string)
    requires gene != [] && gene[0] !in Whitespace && 'A' !in gene
    ensures var x := gene + " " + NucOnly + "|" + CoverageOnly;
      Replace(x, TripleHeader, "") == x && StripSpace(x) == x
  {
    var rest := " " + NucOnly + "|" + CoverageOnly;
    var x := gene + rest;
    assert x == gene + " " + NucOnly + "|" + CoverageOnly;
    HeaderPatterns();
    assert 'A' !in rest;
    MissingChar(x, TripleHeader, 18);
    TrimUnchanged(x, Whitespace);
  }

  /** Text without either alternative's first character passes through in front of the rest. */
  lemma {:induction false} RemoveEitherPrefix(u: string, v: string, p: string, q: string)
    requires |p| > 0 && |q| > 0 && p[0] !in u && q[0] !in u
    ensures RemoveEither(u + v, p, q) == u + RemoveEither(v, p, q)
    decreases |u|
  {
    if |u| > 0 {
      RemoveEitherKeep(u + v, p, q);
      assert (u + v)[1..] == u[1..] + v;
      RemoveEitherPrefix(u[1..], v, p, q);
      assert [u[0]] + u[1..] == u;
    } else {
      assert u + v == v;
    }
  }

  /**
    `create_centar_combined_df`'s directory split: trailing slashes stripped, then the
    parent folder (the earlier components joined by `/`) and the data location (the last one).
   */
  function SplitDirectory(directory: string): (string, string) {
    var parts := Split(RStripChar(directory, '/'), '/');
    (JoinList(parts[..|parts| - 1], '/'), parts[|parts| - 1])
  }

  /**
    The data location holds no slash; the parent folder, a slash and the data location
    rebuild the stripped path when it has a slash, and otherwise the parent is empty and
    the location is the whole path; the location is empty only for an empty path.
   */
  lemma SplitDirectorySpec(directory: string)
    ensures var d := RStripChar(directory, '/'); var (parent, location) := SplitDirectory(directory);
      && '/' !in location
      && ('/' in d ==> parent + "/" + location == d)
      && ('/' !in d ==> parent == "" && location == d)
      && (location == "" <==> d == "")
  {
    var d := RStripChar(directory, '/');
    var parts := Split(d, '/');
    var n := |parts|;
    TrimRightSpec(directory, {'/'});
    JoinSplit(d, '/');
    if n == 1 {
      assert Join(parts, '/') == parts[0];
    } else {
      assert parts == parts[..n - 1] + [parts[n - 1]];
      JoinSnoc(parts[..n - 1], parts[n - 1], '/');
      assert d == Join(parts[..n - 1], '/') + "/" + parts[n - 1];
      assert d[|d| - |parts[n - 1]| - 1] == '/';
    }
  }

  /** The columns of a ShigaPass row, in the order the row is built. */
  const ShigaColumns: seq<string> := ["WGS_ID", "ShigaPass_Organism", "UNI"]

  /** Field 9 of a line that ShigaPass did not call as Shigella or EIEC, with its line ending. */
  const NotShigella: string := "Not Shigella/EIEC\n"

  /** The organism a ShigaPass summary line reports: empty when it is not Shigella, otherwise field 7. */
  function LineOrganism(line: string): Result<string, SpeciesError> {
    var fields := Split(line, ';');
    if |fields| < 10 then Failure(ShortLine(line))
    else if fields[9] == NotShigella then Success("")
    else Success(fields[7])
  }

  /** A line of `;`-free fields reports field 7, or nothing when field 9 says it is not Shigella; a line of fewer than ten fields is an error. */
  lemma LineOrganismFields(fields: seq<string>)
    requires |fields| >= 1 && forall k :: 0 <= k < |fields| ==> ';' !in fields[k]
    ensures var r := LineOrganism(Join(fields, ';'));
      && (|fields| < 10 <==> r.Failure?)
      && (|fields| >= 10 ==> r == Success(if fields[9] == NotShigella then "" else fields[7]))
  {
    var line := Join(fields, ';');
    SplitJoin(fields, ';');
    assert Split(line, ';') == fields;
  }

  /** `readlines()[1:]`: the lines after the header, none for an empty file. */
  function DataLines(lines: seq<string>): seq<string> {
    if lines == [] then [] else lines[1..]
  }

  /** One `row_data` dictionary as a row under `ShigaColumns`. */
  function ShigaRow(sample: string, organism: string, uni: string): seq<Cell> {
    [Some(sample), Some(organism), Some(uni)]
  }

  /** The rows the lines produce, or the error of the first line with fewer than ten fields. */
  function ShigaRows(sample: string, uni: string, lines: seq<string>): (r: Result<seq<seq<Cell>>, SpeciesError>)
    ensures r.Success? ==> |r.value| == |lines| && forall k :: 0 <= k < |lines| ==> |r.value[k]| == |ShigaColumns|
  {
    if lines == [] then Success([])
    else
      var earlier := ShigaRows(sample, uni, lines[..|lines| - 1]);
      if earlier.Failure? then earlier
      else
        var organism := LineOrganism(lines[|lines| - 1]);
        if organism.Failure? then Failure(organism.error)
        else Success(earlier.value + [ShigaRow(sample, organism.value, uni)])
  }

  /**
    The rows succeed exactly when every line has ten fields; then there is one row per
    line, holding the sample, that line's organism and the UNI.
   */
  lemma {:induction false} ShigaRowsSpec(sample: string, uni: string, lines: seq<string>)
    ensures var r := ShigaRows(sample, uni, lines);
      && (r.Success? <==> forall k :: 0 <= k < |lines| ==> LineOrganism(lines[k]).Success?)
      && (r.Success? ==> |r.value| == |lines| && forall k :: 0 <= k < |lines| ==> r.value[k] == ShigaRow(sample, LineOrganism(lines[k]).value, uni))
  {
    if lines != [] {
      var n := |lines| - 1;
      ShigaRowsSpec(sample, uni, lines[..n]);
      assert forall k :: 0 <= k < n ==> lines[..n][k] == lines[k];
    }
  }

  /** The row of one line, when all lines succeed. */
  lemma ShigaRowsAt(sample: string, uni: string, lines: seq<string>, k: nat)
    requires ShigaRows(sample, uni, lines).Success? && k < |lines|
    ensures LineOrganism(lines[k]).Success? && ShigaRows(sample, uni, lines).value[k] == ShigaRow(sample, LineOrganism(lines[k]).value, uni)
  {
    ShigaRowsSpec(sample, uni, lines);
  }

  /** One more line either fails or adds its row. */
  lemma ShigaRowsSnoc(sample: string, uni: string, lines: seq<string>, i: nat)
    requires i < |lines| && ShigaRows(sample, uni, lines[..i]).Success?
    ensures var organism := LineOrganism(lines[i]);
      ShigaRows(sample, uni, lines[..i + 1]) ==
        if organism.Failure? then Failure(organism.error)
        else Success(ShigaRows(sample, uni, lines[..i]).value + [ShigaRow(sample, organism.value, uni)])
  {
    assert lines[..i + 1][..i] == lines[..i];
  }

  /** An error in the first lines is the error of all of them. */
  lemma {:induction false} ShigaRowsFailure(sample: string, uni: string, lines: seq<string>, m: nat)
    requires m <= |lines| && ShigaRows(sample, uni, lines[..m]).Failure?
    ensures ShigaRows(sample, uni, lines) == ShigaRows(sample, uni, lines[..m])
  {
    if m < |lines| {
      var n := |lines| - 1;
      assert lines[..n][..m] == lines[..m];
      ShigaRowsFailure(sample, uni, lines[..n], m);
    } else {
      assert lines[..m] == lines;
    }
  }

  /** The table after each row has been concatenated to it in turn. */
  function Grow(f: Frame, rows: seq<seq<Cell>>): (r: Frame)
    ensures |r.rows| == |f.rows| + |rows|
    ensures Rect(f) ==> Rect(r)
  {
    if rows == [] then f else Concat(Grow(f, rows[..|rows| - 1]), Frame(ShigaColumns, [rows[|rows| - 1]]))
  }

  lemma GrowSnoc(f: Frame, rows: seq<seq<Cell>>, row: seq<Cell>)
    ensures Grow(f, rows + [row]) == Concat(Grow(f, rows), Frame(ShigaColumns, [row]))
  {
    assert (rows + [row])[..|rows|] == rows;
  }

  /**
    Growing the table keeps every earlier row's cells under their names, and each new row
    holds its values under the ShigaPass column names.
   */
  lemma {:induction false} GrowLookup(f: Frame, rows: seq<seq<Cell>>, i: nat, c: string)
    requires Rect(f) && i < |f.rows| + |rows|
    requires forall k :: 0 <= k < |rows| ==> |rows[k]| == |ShigaColumns|
    ensures var g := Grow(f, rows);
      Lookup(g.rows[i], g.columns, c) == if i < |f.rows| then Lookup(f.rows[i], f.columns, c) else Lookup(rows[i - |f.rows|], ShigaColumns, c)
  {
    if rows != [] {
      var n := |rows| - 1;
      var pre := rows[..n];
      var g := Grow(f, pre);
      assert Grow(f, rows) == Concat(g, Frame(ShigaColumns, [rows[n]]));
      ConcatLookup(g, Frame(ShigaColumns, [rows[n]]), i, c);
      if i < |f.rows| + n {
        assert forall k :: 0 <= k < |pre| ==> |pre[k]| == |ShigaColumns|;
        GrowLookup(f, pre, i, c);
      } else {
        assert rows[i - |f.rows|] == [rows[n]][i - |g.rows|];
      }
    }
  }

  /** The species-name mapping applied to the organism column. */
  function FullName(c: Cell): Cell {
    match c
    case Some("SB") => Some("Shigella boydii")
    case Some("SD") => Some("Shigella dysenteriae")
    case Some("SS") => Some("Shigella sonnei")
    case Some("SF1-5") => Some("Shigella flexneri")
    case _ => c
  }

  /** `create_shiga_df`: one row per data line added to the table, then the organism codes expanded. */
  function ShigaTable(directory: string, sample: string, lines: seq<string>, shiga: Frame): Result<Frame, SpeciesError> {
    var uni := RStripChar(directory, '/') + "/" + sample;
    var rows := ShigaRows(sample, uni, DataLines(lines));
    if rows.Failure? then Failure(rows.error)
    else
      var g := Grow(shiga, rows.value);
      if "ShigaPass_Organism" !in g.columns then Failure(NoOrganismColumn)
      else Success(Frame(g.columns, MapColumn(g.rows, Find(g.columns, "ShigaPass_Organism"), FullName)))
  }

  /** `create_shiga_df`, line by line over the summary file's lines. */
  method CreateShigaDf(directory: string, sample: string, lines: seq<string>, shiga: Frame) returns (r: Result<Frame, SpeciesError>)
    ensures r == ShigaTable(directory, sample, lines, shiga)
  {
    var uni := RStripChar(directory, '/') + "/" + sample;
    var data := DataLines(lines);
    var df := shiga;
    ghost var added: seq<seq<Cell>> := [];
    for i := 0 to |data|
      invariant ShigaRows(sample, uni, data[..i]) == Success(added)
      invariant df == Grow(shiga, added)
    {
      var organism := LineOrganism(data[i]);
      ShigaRowsSnoc(sample, uni, data, i);
      if organism.Failure? {
        ShigaRowsFailure(sample, uni, data, i + 1);
        return Failure(organism.error);
      }
      var row := ShigaRow(sample, organism.value, uni);
      df := Concat(df, Frame(ShigaColumns, [row]));
      GrowSnoc(shiga, added, row);
      added := added + [row];
    }
    assert data[..|data|] == data;
    if "ShigaPass_Organism" !in df.columns {
      return Failure(NoOrganismColumn);
    }
    var j := Find(df.columns, "ShigaPass_Organism");
    r := Success(Frame(df.columns, MapColumn(df.rows, j, FullName)));
  }

  /** A built ShigaPass table is the grown table with the organism column expanded. */
  lemma ShigaTableGrown(directory: string, sample: string, lines: seq<string>, shiga: Frame)
    requires ShigaTable(directory, sample, lines, shiga).Success?
    ensures var uni := RStripChar(directory, '/') + "/" + sample;
      var rows := ShigaRows(sample, uni, DataLines(lines));
      && rows.Success?
      && var g := Grow(shiga, rows.value);
      && "ShigaPass_Organism" in g.columns
      && ShigaTable(directory, sample, lines, shiga).value == Frame(g.columns, MapColumn(g.rows, Find(g.columns, "ShigaPass_Organism"), FullName))
  {
  }

  /** A built ShigaPass table keeps the given rows, with their cells outside the organism column unchanged, and adds one row per data line. */
  lemma ShigaTableKept(directory: string, sample: string, lines: seq<string>, shiga: Frame, i: nat, c: string)
    requires Rect(shiga) && ShigaTable(directory, sample, lines, shiga).Success?
    ensures |ShigaTable(directory, sample, lines, shiga).value.rows| == |shiga.rows| + |DataLines(lines)|
    ensures i < |shiga.rows| && c != "ShigaPass_Organism" ==>
      var t := ShigaTable(directory, sample, lines, shiga).value;
      Lookup(t.rows[i], t.columns, c) == Lookup(shiga.rows[i], shiga.columns, c)
  {
    var uni := RStripChar(directory, '/') + "/" + sample;
    ShigaTableGrown(directory, sample, lines, shiga);
    ShigaRowsSpec(sample, uni, DataLines(lines));
    var rows := ShigaRows(sample, uni, DataLines(lines)).value;
    var g := Grow(shiga, rows);
    if i < |shiga.rows| {
      var j := Find(g.columns, "ShigaPass_Organism");
      MapColumnAt(g.rows, j, FullName, i);
      GrowLookup(shiga, rows, i, c);
      MappedLookup(g.rows[i], g.columns, j, c);
    }
  }

  /** Each added row holds its values under the ShigaPass names. */
  lemma GrownAdded(f: Frame, rows: seq<seq<Cell>>, k: nat, t: nat)
    requires Rect(f) && k < |rows| && t < |ShigaColumns|
    requires forall j :: 0 <= j < |rows| ==> |rows[j]| == |ShigaColumns|
    ensures var g := Grow(f, rows); Lookup(g.rows[|f.rows| + k], g.columns, ShigaColumns[t]) == rows[k][t]
  {
    GrowLookup(f, rows, |f.rows| + k, ShigaColumns[t]);
    ShigaDistinct();
    LookupPresent(rows[k], ShigaColumns, t);
  }

  lemma ShigaDistinct()
    ensures Distinct(ShigaColumns)
  {
  }

  /**
    Each row a data line adds holds the sample under `WGS_ID`, the expanded organism of its
    line under `ShigaPass_Organism` and the stripped directory joined to the sample under `UNI`.
   */
  lemma ShigaTableAdded(directory: string, sample: string, lines: seq<string>, shiga: Frame, k: nat)
    requires Rect(shiga) && ShigaTable(directory, sample, lines, shiga).Success? && k < |DataLines(lines)|
    ensures |ShigaTable(directory, sample, lines, shiga).value.rows| == |shiga.rows| + |DataLines(lines)|
    ensures LineOrganism(DataLines(lines)[k]).Success?
    ensures var t := ShigaTable(directory, sample, lines, shiga).value; var row := t.rows[|shiga.rows| + k];
      && Lookup(row, t.columns, "WGS_ID") == Some(sample)
      && Lookup(row, t.columns, "ShigaPass_Organism") == FullName(Some(LineOrganism(DataLines(lines)[k]).value))
      && Lookup(row, t.columns, "UNI") == Some(RStripChar(directory, '/') + "/" + sample)
  {
    var uni := RStripChar(directory, '/') + "/" + sample;
    ShigaTableGrown(directory, sample, lines, shiga);
    ShigaRowsAt(sample, uni, DataLines(lines), k);
    var rows := ShigaRows(sample, uni, DataLines(lines)).value;
    MappedAdded(shiga, rows, k, 0);
    MappedAdded(shiga, rows, k, 1);
    MappedAdded(shiga, rows, k, 2);
  }

  /** An added row, once the organism column is expanded, holds its values under the ShigaPass names, the organism expanded. */
  lemma MappedAdded(f: Frame, rows: seq<seq<Cell>>, k: nat, t: nat)
    requires Rect(f) && k < |rows| && t < |ShigaColumns|
    requires forall j :: 0 <= j < |rows| ==> |rows[j]| == |ShigaColumns|
    requires "ShigaPass_Organism" in Grow(f, rows).columns
    ensures var g := Grow(f, rows);
      var m := MapColumn(g.rows, Find(g.columns, "ShigaPass_Organism"), FullName);
      Lookup(m[|f.rows| + k], g.columns, ShigaColumns[t]) == if t == 1 then FullName(rows[k][t]) else rows[k][t]
  {
    var g := Grow(f, rows);
    var i, c, v := |f.rows| + k, ShigaColumns[t], rows[k][t];
    GrownAdded(f, rows, k, t);
    MappedCell(g, i, c, v);
    assert ShigaColumns[t] == "ShigaPass_Organism" <==> t == 1;
  }

  /** Expanding the organism column changes a row's organism cell and no other lookup. */
  lemma MappedCell(g: Frame, i: nat, c: string, v: Cell)
    requires Rect(g) && i < |g.rows| && "ShigaPass_Organism" in g.columns
    requires Lookup(g.rows[i], g.columns, c) == v
    ensures var m := MapColumn(g.rows, Find(g.columns, "ShigaPass_Organism"), FullName);
      Lookup(m[i], g.columns, c) == if c == "ShigaPass_Organism" then FullName(v) else v
  {
    var j := Find(g.columns, "ShigaPass_Organism");
    var row := g.rows[i];
    assert |row| == |g.columns|;
    MapColumnAt(g.rows, j, FullName, i);
    MappedLookup(row, g.columns, j, c);
  }

  /** Rewriting the cell of the first column of one name changes only the lookup under that name. */
  lemma MappedLookup(row: seq<Cell>, cols: seq<string>, j: nat, c: string)
    requires |row| == |cols| && j < |cols|
    ensures Lookup(row[j := FullName(row[j])], cols, c) == if Find(cols, c) == j then FullName(Lookup(row, cols, c)) else Lookup(row, cols, c)
  {
  }
}
