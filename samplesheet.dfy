/**
  `check_samplesheet`: validates a PHoeNIx samplesheet line by line and produces the
  normalised sheet: a single-end flag after the sample name, samples in sorted order,
  read paths re-suffixed to their gzip names.

  The input file is given as its lines (the first is the header line that `readline`
  returns, `""` for an empty file); the output is given as rows of fields, each written
  by the source as the fields joined with commas. Every `print_error`/`sys.exit(1)` is a
  `Failure`.
 */
module Samplesheet {
  import opened Wrappers
  import opened Strings
  import opened Ordering

  /** The columns the header must start with. */
  const Header: seq<string> := ["sample", "fastq_1", "fastq_2", "fastp_pass_json", "fastp_failed_json",
                                "spades", "mlst", "quast", "amrfinderplus"]
  /** Fewest non-empty fields a row may have. */
  const MinCols: nat := 2
  /** The header written to the output sheet. */
  const OutputHeader: seq<string> := ["sample", "single_end", "fastq_1", "fastq_2", "fastp_pass_json",
                                      "fastp_failed_json", "spades", "mlst", "quast", "amrfinderplus"]

  /** What is kept per run: the single-end flag ("0" paired, "1" single) and the eight paths. */
  type Info = x: seq<string> | |x| == |Header| witness ["", "", "", "", "", "", "", "", ""]

  datatype SheetError =
    | BadHeader(found: seq<string>)
    | TooFewColumns(line: string)
    | TooFewPopulated(line: string)
    | NoSample(line: string)
    | SpaceInFastq(line: string)
    | InvalidCombination(line: string)
    | DuplicateRow(line: string)
    | MixedDatatype(sample: string)
    | NoEntries

  /** The header line's fields: the line stripped, split on commas, each field unquoted. */
  function HeaderFields(line: string): seq<string> {
    Unquote(Split(StripSpace(line), ','))
  }

  /** Each header field stripped of double quotes. */
  function Unquote(raw: seq<string>): (f: seq<string>)
    ensures |f| == |raw|
  {
    if raw == [] then [] else [StripChar(raw[0], '"')] + Unquote(raw[1..])
  }

  /** A data line's fields: as for the header, each field also stripped of whitespace. */
  function Fields(line: string): (f: seq<string>)
    ensures |f| >= 1
  {
    CleanFields(Split(StripSpace(line), ','))
  }

  /** Each field stripped of whitespace, then of double quotes. */
  function CleanFields(raw: seq<string>): (f: seq<string>)
    ensures |f| == |raw|
  {
    if raw == [] then [] else [StripChar(StripSpace(raw[0]), '"')] + CleanFields(raw[1..])
  }

  /** `header[:len(HEADER)] == HEADER`: extra trailing header columns are tolerated. */
  predicate HeaderOk(line: string)
    ensures HeaderOk(line) <==> |HeaderFields(line)| >= |Header| && HeaderFields(line)[..|Header|] == Header
  {
    var h := HeaderFields(line);
    (if |h| <= |Header| then h else h[..|Header|]) == Header
  }

  /** Number of non-empty fields. */
  function CountPopulated(f: seq<string>): (n: nat)
    ensures n <= |f|
  {
    if f == [] then 0 else CountPopulated(f[1..]) + (if f[0] != "" then 1 else 0)
  }

  /** No field is populated exactly when every field is empty. */
  lemma {:induction false} NonePopulated(f: seq<string>)
    ensures CountPopulated(f) == 0 <==> forall i :: 0 <= i < |f| ==> f[i] == ""
  {
    if f != [] {
      NonePopulated(f[1..]);
      assert forall i :: 1 <= i < |f| ==> f[i] == f[1..][i - 1];
    }
  }

  /** At least two fields are populated exactly when two different fields are non-empty. */
  lemma {:induction false} TwoPopulated(f: seq<string>)
    ensures CountPopulated(f) >= 2 <==> exists i, j :: 0 <= i < j < |f| && f[i] != "" && f[j] != ""
  {
    if f != [] {
      var t := f[1..];
      TwoPopulated(t);
      NonePopulated(t);
      if exists i, j :: 0 <= i < j < |f| && f[i] != "" && f[j] != "" {
        var i, j :| 0 <= i < j < |f| && f[i] != "" && f[j] != "";
        assert f[j] == t[j - 1];
        if i > 0 {
          assert f[i] == t[i - 1];
        }
      }
      if CountPopulated(f) >= 2 {
        if f[0] != "" {
          var j :| 0 <= j < |t| && t[j] != "";
          assert f[j + 1] == t[j];
        } else {
          var i, j :| 0 <= i < j < |t| && t[i] != "" && t[j] != "";
          assert f[i + 1] == t[i] && f[j + 1] == t[j];
        }
      }
    }
  }

  /** Validates one data line and classifies it as paired-end ("0") or single-end ("1"). */
  function ParseRow(line: string): Result<(string, Info), SheetError> {
    ParseFields(Fields(line), line)
  }

  /** The checks made on a data line's fields `f`, in the order the source makes them. */
  function ParseFields(f: seq<string>, line: string): Result<(string, Info), SheetError> {
    if |f| < |Header| then Failure(TooFewColumns(line))
    else if CountPopulated(f) < MinCols then Failure(TooFewPopulated(line))
    else
      var sample := ReplaceChar(f[0], ' ', '_');
      if sample == "" then Failure(NoSample(line))
      else if f[1] != "" && ' ' in f[1] then Failure(SpaceInFastq(line))
      else if f[2] != "" && ' ' in f[2] then Failure(SpaceInFastq(line))
      else if f[1] != "" && f[2] != "" then Success((sample, ["0"] + f[1..|Header|]))
      else if f[1] != "" then Success((sample, ["1"] + f[1..|Header|]))
      else Failure(InvalidCombination(line))
  }

  /**
    A row is accepted exactly when it has at least nine fields, at least two of them
    non-empty, a sample name, no space in either read path and a fastq_1.
   */
  lemma ParseRowSpec(f: seq<string>, line: string)
    ensures ParseFields(f, line).Success? <==>
      (|f| >= |Header| && CountPopulated(f) >= MinCols && f[0] != "" && ' ' !in f[1] && ' ' !in f[2] && f[1] != "")
  {
    if |f| >= |Header| {
      assert |ReplaceChar(f[0], ' ', '_')| == |f[0]|;
    }
  }

  /**
    An accepted row's sample name has its spaces turned into underscores, its flag is "0"
    when fastq_2 is given and "1" when it is not, and its eight paths are kept as read.
   */
  lemma ParseRowValue(f: seq<string>, line: string)
    requires ParseFields(f, line).Success?
    ensures var r := ParseFields(f, line).value;
      && r.0 == ReplaceChar(f[0], ' ', '_')
      && r.0 != "" && ' ' !in r.0
      && r.1[1..] == f[1..|Header|]
      && (r.1[0] == "0" <==> f[2] != "")
      && (r.1[0] == "1" <==> f[2] == "")
  {
    ReplaceCharRemoves(f[0], ' ', '_');
  }

  /** The error reported for a rejected row: the checks apply in the order the source makes them. */
  lemma ParseRowErrors(f: seq<string>, line: string)
    ensures |f| < |Header| ==> ParseFields(f, line) == Failure(TooFewColumns(line))
    ensures |f| >= |Header| && CountPopulated(f) < MinCols ==> ParseFields(f, line) == Failure(TooFewPopulated(line))
    ensures |f| >= |Header| && CountPopulated(f) >= MinCols && f[0] == "" ==> ParseFields(f, line) == Failure(NoSample(line))
    ensures |f| >= |Header| && CountPopulated(f) >= MinCols && f[0] != "" && (' ' in f[1] || ' ' in f[2])
      ==> ParseFields(f, line) == Failure(SpaceInFastq(line))
    ensures |f| >= |Header| && CountPopulated(f) >= MinCols && f[0] != "" && ' ' !in f[1] && ' ' !in f[2] && f[1] == ""
      ==> ParseFields(f, line) == Failure(InvalidCombination(line))
  {
  }

  /**
    `re.sub("." + tail + "$", rep, s)`: `.` matches any character but a newline and `$`
    the end of `s` (the fields rewritten are stripped, so they never end in a newline).
   */
  function SubSuffix(s: string, tail: string, rep: string): (r: string)
    ensures |s| > |tail| && s[|s| - |tail| - 1] != '\n' && EndsWith(s, tail) ==> r == s[..|s| - |tail| - 1] + rep
    ensures !EndsWith(s, tail) ==> r == s
  {
    if |s| > |tail| && s[|s| - |tail| - 1] != '\n' && EndsWith(s, tail) then s[..|s| - |tail| - 1] + rep else s
  }

  /** A read path as written to the output sheet. */
  function RewriteRead(s: string): (r: string)
    ensures EndsWith(s, ".gz") ==> r == s
    ensures !EndsWith(s, "fastq") && !EndsWith(s, "fq") ==> r == s
    ensures r == s || EndsWith(r, ".gz")
  {
    if EndsWith(s, ".gz") then s
    else SubSuffix(SubSuffix(s, "fastq", ".fastq.gz"), "fq", ".fq.gz")
  }

  /** The run's fastq_1 and fastq_2 re-suffixed, everything else as it was. */
  function RewriteInfo(info: Info): (r: Info)
    ensures r[0] == info[0] && r[3..] == info[3..]
    ensures r[1] == RewriteRead(info[1]) && r[2] == RewriteRead(info[2])
  {
    info[1 := RewriteRead(info[1])][2 := RewriteRead(info[2])]
  }

  /**
    A path ending in "fastq" preceded by any character but a newline loses that character
    and gains ".fastq.gz": the pattern's `.` matches any character, so "x_fastq" becomes
    "x.fastq.gz".
   */
  lemma RewriteFastqWildcard(s: string)
    requires !EndsWith(s, ".gz") && |s| > 5 && EndsWith(s, "fastq") && s[|s| - 6] != '\n'
    ensures RewriteRead(s) == s[..|s| - 6] + ".fastq.gz"
  {
    var t := s[..|s| - 6] + ".fastq.gz";
    assert SubSuffix(s, "fastq", ".fastq.gz") == t;
    assert t[|t| - 1] == 'z';
    assert !EndsWith(t, "fq");
  }

  /** A path ending in ".fastq" gains ".gz". */
  lemma RewriteFastq(s: string)
    requires !EndsWith(s, ".gz") && EndsWith(s, ".fastq")
    ensures RewriteRead(s) == s + ".gz"
  {
    var n := |s|;
    assert s[n - 6..] == ".fastq";
    assert s[n - 6] == '.';
    assert s[n - 5..] == s[n - 6..][1..];
    RewriteFastqWildcard(s);
    assert s == s[..n - 6] + s[n - 6..];
  }

  /** A path ending in ".fq" gains ".gz". */
  lemma RewriteFq(s: string)
    requires !EndsWith(s, ".gz") && EndsWith(s, ".fq")
    ensures RewriteRead(s) == s + ".gz"
  {
    var n := |s|;
    assert s[n - 3..] == ".fq";
    assert s[n - 2] == 'f' && s[n - 3] == '.';
    assert !EndsWith(s, "fastq") by {
      if n >= 5 {
        assert s[n - 5..][3] == s[n - 2];
      }
    }
    assert SubSuffix(s, "fastq", ".fastq.gz") == s;
    assert EndsWith(s, "fq") by {
      assert s[n - 2..] == s[n - 3..][1..];
    }
    var stem := s[..n - 3];
    assert SubSuffix(s, "fq", ".fq.gz") == stem + ".fq.gz";
    assert s == stem + ".fq";
    assert stem + ".fq.gz" == (stem + ".fq") + ".gz";
  }

  /** Every sample has at least one run. */
  predicate WellFormedRuns(m: map<string, seq<Info>>) {
    forall s :: s in m ==> |m[s]| > 0
  }

  /** Files a parsed run under its sample; a run identical to an earlier one of the sample is an error. */
  function AddRun(m: map<string, seq<Info>>, sample: string, info: Info, line: string)
    : (r: Result<map<string, seq<Info>>, SheetError>)
    ensures r.Success? <==> sample !in m || info !in m[sample]
    ensures r.Success? ==> r.value.Keys == m.Keys + {sample} && info in r.value[sample]
  {
    if sample !in m then Success(m[sample := [info]])
    else if info in m[sample] then Failure(DuplicateRow(line))
    else Success(m[sample := m[sample] + [info]])
  }

  /** A data line paired with the outcome of checking it. */
  type Entry = (string, Result<(string, Info), SheetError>)

  /** Every data line with its check. */
  function Checked(rows: seq<string>): (es: seq<Entry>)
    ensures |es| == |rows|
    ensures forall i :: 0 <= i < |rows| ==> es[i] == (rows[i], ParseRow(rows[i]))
  {
    seq(|rows|, i requires 0 <= i < |rows| => (rows[i], ParseRow(rows[i])))
  }

  /** The sample-to-runs dictionary that the loop over the data lines builds, stopping at the first error. */
  function Gather(es: seq<Entry>): (r: Result<map<string, seq<Info>>, SheetError>)
    ensures r.Success? ==> WellFormedRuns(r.value)
  {
    if es == [] then Success(map[])
    else
      var prev := Gather(es[..|es| - 1]);
      var last := es[|es| - 1];
      if prev.Failure? then prev
      else if last.1.Failure? then Failure(last.1.error)
      else AddRun(prev.value, last.1.value.0, last.1.value.1, last.0)
  }

  /** The dictionary built from the data lines. */
  function Collect(rows: seq<string>): (r: Result<map<string, seq<Info>>, SheetError>)
    ensures r.Success? ==> WellFormedRuns(r.value)
  {
    Gather(Checked(rows))
  }

  /** The runs of `sample` among the accepted entries, in input order. */
  function RunsOf(es: seq<Entry>, sample: string): seq<Info> {
    if es == [] then []
    else
      var p := es[|es| - 1].1;
      RunsOf(es[..|es| - 1], sample) + (if p.Success? && p.value.0 == sample then [p.value.1] else [])
  }

  /** A run is listed under a sample exactly when some entry was accepted with that sample and run. */
  lemma {:induction false} RunsOfMembers(es: seq<Entry>, sample: string, x: Info)
    ensures x in RunsOf(es, sample) <==> exists i :: 0 <= i < |es| && es[i].1 == Success((sample, x))
  {
    if es != [] {
      var n := |es| - 1;
      var pre := es[..n];
      RunsOfMembers(pre, sample, x);
      var tail := if es[n].1.Success? && es[n].1.value.0 == sample then [es[n].1.value.1] else [];
      assert RunsOf(es, sample) == RunsOf(pre, sample) + tail;
      assert x in tail <==> es[n].1 == Success((sample, x));
      if exists i :: 0 <= i < |es| && es[i].1 == Success((sample, x)) {
        var i :| 0 <= i < |es| && es[i].1 == Success((sample, x));
        if i < n {
          assert pre[i] == es[i];
        }
      }
      if exists i :: 0 <= i < n && pre[i].1 == Success((sample, x)) {
        var i :| 0 <= i < n && pre[i].1 == Success((sample, x));
        assert es[i] == pre[i];
      }
    }
  }

  /** When the fold succeeds, every entry was accepted. */
  lemma {:induction false} GatherAccepted(es: seq<Entry>)
    requires Gather(es).Success?
    ensures forall i :: 0 <= i < |es| ==> es[i].1.Success?
  {
    if es != [] {
      var pre := es[..|es| - 1];
      GatherAccepted(pre);
      forall i | 0 <= i < |es| - 1 ensures es[i].1.Success? {
        assert es[i] == pre[i];
      }
    }
  }

  /**
    When the fold succeeds, the dictionary's keys are the samples named by the entries,
    and each sample's list holds its runs in input order.
   */
  lemma {:induction false} GatherRuns(es: seq<Entry>, s: string)
    requires Gather(es).Success?
    ensures s in Gather(es).value <==> RunsOf(es, s) != []
    ensures s in Gather(es).value ==> Gather(es).value[s] == RunsOf(es, s)
  {
    if es != [] {
      var pre := es[..|es| - 1];
      GatherRuns(pre, s);
    }
  }

  /** Two entries accepted with the same sample and the same run make the fold fail. */
  lemma {:induction false} GatherRejectsDuplicates(es: seq<Entry>, i: nat, j: nat)
    requires i < j < |es|
    requires es[i].1.Success? && es[i].1 == es[j].1
    ensures Gather(es).Failure?
  {
    var pre := es[..|es| - 1];
    if j < |es| - 1 {
      assert pre[i] == es[i] && pre[j] == es[j];
      GatherRejectsDuplicates(pre, i, j);
    } else if Gather(pre).Success? {
      var p := es[i].1.value;
      assert pre[i] == es[i];
      RunsOfMembers(pre, p.0, p.1);
      GatherRuns(pre, p.0);
    }
  }

  /** Entries that were all accepted, no two with the same sample and run, are folded without error. */
  lemma {:induction false} GatherAccepts(es: seq<Entry>)
    requires forall i :: 0 <= i < |es| ==> es[i].1.Success?
    requires forall i, j :: 0 <= i < j < |es| ==> es[i].1 != es[j].1
    ensures Gather(es).Success?
  {
    if es != [] {
      var pre := es[..|es| - 1];
      forall i | 0 <= i < |pre| ensures pre[i] == es[i] { }
      GatherAccepts(pre);
      var p := es[|es| - 1].1.value;
      GatherRuns(pre, p.0);
      RunsOfMembers(pre, p.0, p.1);
    }
  }

  /** `all(x[0] == runs[0][0] for x in runs)`: every run of the sample has the same single-end flag. */
  predicate SameDatatype(runs: seq<Info>) {
    forall t :: 0 <= t < |runs| ==> runs[t][0] == runs[0][0]
  }

  /** The row written for a run of `sample`. */
  function OutRow(sample: string, x: Info): (row: seq<string>)
    ensures |row| == |OutputHeader| && row[0] == sample && row[1] == x[0]
  {
    [sample] + RewriteInfo(x)
  }

  /** The output rows of one sample: its name, then each run with its read paths re-suffixed. */
  function SampleRows(sample: string, runs: seq<Info>): (rows: seq<seq<string>>)
    ensures |rows| == |runs|
    ensures forall t :: 0 <= t < |rows| ==> |rows[t]| == |OutputHeader| && rows[t][0] == sample
  {
    if runs == [] then []
    else SampleRows(sample, runs[..|runs| - 1]) + [OutRow(sample, runs[|runs| - 1])]
  }

  /** The sample's rows are its runs, one row each, in order. */
  lemma {:induction false} SampleRowsAt(sample: string, runs: seq<Info>, t: nat)
    requires t < |runs|
    ensures SampleRows(sample, runs)[t] == OutRow(sample, runs[t])
  {
    var pre := runs[..|runs| - 1];
    if t < |pre| {
      assert pre[t] == runs[t];
      SampleRowsAt(sample, pre, t);
    }
  }

  /** A sample with its runs, as the output loop visits them. */
  type Group = (string, seq<Info>)

  /** Keys that the dictionary holds. */
  predicate KeysIn(m: map<string, seq<Info>>, ks: seq<string>) {
    forall i :: 0 <= i < |ks| ==> ks[i] in m
  }

  /** The samples `ks` with their runs. */
  function Groups(m: map<string, seq<Info>>, ks: seq<string>): (gs: seq<Group>)
    requires KeysIn(m, ks)
    ensures |gs| == |ks|
    ensures forall i :: 0 <= i < |ks| ==> gs[i] == (ks[i], m[ks[i]])
  {
    seq(|ks|, i requires 0 <= i < |ks| && KeysIn(m, ks) => (ks[i], m[ks[i]]))
  }

  /**
    The rows written for the groups in that order; the first group whose runs mix
    paired-end and single-end data stops the output.
   */
  function Render(gs: seq<Group>): (r: Result<seq<seq<string>>, SheetError>)
    ensures r.Success? ==> forall a :: 0 <= a < |r.value| ==> |r.value[a]| == |OutputHeader|
  {
    if gs == [] then Success([])
    else
      var prev := Render(gs[..|gs| - 1]);
      var g := gs[|gs| - 1];
      if prev.Failure? then prev
      else if !SameDatatype(g.1) then Failure(MixedDatatype(g.0))
      else Success(prev.value + SampleRows(g.0, g.1))
  }

  /** The output after one more group. */
  lemma RenderSnoc(gs: seq<Group>, j: nat)
    requires j < |gs|
    ensures var prev := Render(gs[..j]);
      Render(gs[..j + 1]) ==
        if prev.Failure? then prev
        else if !SameDatatype(gs[j].1) then Failure(MixedDatatype(gs[j].0))
        else Success(prev.value + SampleRows(gs[j].0, gs[j].1))
  {
    assert gs[..j + 1][..j] == gs[..j];
  }

  /** Output stops exactly when some group mixes data types, and the error names such a sample. */
  lemma {:induction false} RenderFails(gs: seq<Group>)
    ensures Render(gs).Success? <==> forall i :: 0 <= i < |gs| ==> SameDatatype(gs[i].1)
    ensures Render(gs).Failure? ==>
      exists i :: 0 <= i < |gs| && Render(gs).error == MixedDatatype(gs[i].0) && !SameDatatype(gs[i].1)
  {
    if gs != [] {
      var pre := gs[..|gs| - 1];
      RenderFails(pre);
      if Render(pre).Failure? {
        var i :| 0 <= i < |pre| && Render(pre).error == MixedDatatype(pre[i].0) && !SameDatatype(pre[i].1);
        assert gs[i] == pre[i];
      } else {
        forall i | 0 <= i < |gs| - 1 ensures SameDatatype(gs[i].1) {
          assert gs[i] == pre[i];
        }
      }
    }
  }

  /** Once the output has stopped at a group, the groups after it change nothing. */
  lemma {:induction false} RenderFailurePersists(gs: seq<Group>, j: nat)
    requires j <= |gs| && Render(gs[..j]).Failure?
    ensures Render(gs) == Render(gs[..j])
    decreases |gs| - j
  {
    if j < |gs| {
      var pre := gs[..|gs| - 1];
      assert pre[..j] == gs[..j];
      RenderFailurePersists(pre, j);
    } else {
      assert gs[..j] == gs;
    }
  }

  lemma InAppend(a: seq<seq<string>>, b: seq<seq<string>>, x: seq<string>)
    requires x in a || x in b
    ensures x in a + b
  {
  }

  /** The output holds every run of every group. */
  lemma {:induction false} RenderKeeps(gs: seq<Group>, i: nat, t: nat)
    requires Render(gs).Success? && i < |gs| && t < |gs[i].1|
    ensures OutRow(gs[i].0, gs[i].1[t]) in Render(gs).value
  {
    var pre := gs[..|gs| - 1];
    var g := gs[|gs| - 1];
    var rows := SampleRows(g.0, g.1);
    var prev := Render(pre).value;
    assert Render(gs).value == prev + rows;
    var row := OutRow(gs[i].0, gs[i].1[t]);
    if i < |pre| {
      assert gs[i] == pre[i];
      RenderKeeps(pre, i, t);
      assert row in prev;
    } else {
      SampleRowsAt(g.0, g.1, t);
      assert rows[t] == row;
    }
    InAppend(prev, rows, row);
  }

  /** Each output row is a group's sample followed by one of its runs, re-suffixed. */
  lemma {:induction false} RenderOnly(gs: seq<Group>, row: seq<string>)
    requires Render(gs).Success? && row in Render(gs).value
    ensures exists i, t :: 0 <= i < |gs| && 0 <= t < |gs[i].1| && row == OutRow(gs[i].0, gs[i].1[t])
  {
    var pre := gs[..|gs| - 1];
    var g := gs[|gs| - 1];
    var rows := SampleRows(g.0, g.1);
    assert Render(gs).value == Render(pre).value + rows;
    if row in rows {
      var t :| 0 <= t < |rows| && rows[t] == row;
      SampleRowsAt(g.0, g.1, t);
      assert row == OutRow(gs[|gs| - 1].0, gs[|gs| - 1].1[t]);
    } else {
      RenderOnly(pre, row);
      var i, t :| 0 <= i < |pre| && 0 <= t < |pre[i].1| && row == OutRow(pre[i].0, pre[i].1[t]);
      assert gs[i] == pre[i];
    }
  }

  /** Rows come out grouped in the order of the groups, so in sorted order when their samples are. */
  lemma {:induction false} RenderSorted(gs: seq<Group>)
    requires Render(gs).Success?
    requires forall a, b :: 0 <= a < b < |gs| ==> Less(gs[a].0, gs[b].0)
    ensures var out := Render(gs).value;
      forall a, b :: 0 <= a < b < |out| ==> LessEq(out[a][0], out[b][0])
  {
    if gs != [] {
      var pre := gs[..|gs| - 1];
      var g := gs[|gs| - 1];
      RenderSorted(pre);
      var prev := Render(pre).value;
      var rows := SampleRows(g.0, g.1);
      var out := Render(gs).value;
      assert out == prev + rows;
      forall a, b | 0 <= a < b < |out| ensures LessEq(out[a][0], out[b][0]) {
        if b < |prev| {
          assert out[a] == prev[a] && out[b] == prev[b];
        } else if a >= |prev| {
          assert out[a] == rows[a - |prev|] && out[b] == rows[b - |prev|];
          SampleRowsAt(g.0, g.1, a - |prev|);
          SampleRowsAt(g.0, g.1, b - |prev|);
        } else {
          assert out[a] == prev[a] && out[b] == rows[b - |prev|];
          SampleRowsAt(g.0, g.1, b - |prev|);
          RenderOnly(pre, prev[a]);
          var i, t :| 0 <= i < |pre| && 0 <= t < |pre[i].1| && prev[a] == OutRow(pre[i].0, pre[i].1[t]);
          assert gs[i] == pre[i];
        }
      }
    }
  }

  /** Rows of the same sample carry the same single-end flag, when no sample is listed twice. */
  lemma RenderSameFlag(gs: seq<Group>, a: nat, b: nat)
    requires Render(gs).Success?
    requires forall i, j :: 0 <= i < j < |gs| ==> gs[i].0 != gs[j].0
    requires a < |Render(gs).value| && b < |Render(gs).value|
    requires Render(gs).value[a][0] == Render(gs).value[b][0]
    ensures Render(gs).value[a][1] == Render(gs).value[b][1]
  {
    var out := Render(gs).value;
    assert out[a] in out && out[b] in out;
    RenderOnly(gs, out[a]);
    RenderOnly(gs, out[b]);
    RenderFails(gs);
    var i, ta :| 0 <= i < |gs| && 0 <= ta < |gs[i].1| && out[a] == OutRow(gs[i].0, gs[i].1[ta]);
    var j, tb :| 0 <= j < |gs| && 0 <= tb < |gs[j].1| && out[b] == OutRow(gs[j].0, gs[j].1[tb]);
    assert i == j;
    assert SameDatatype(gs[i].1);
  }

  /** Once the fold has failed on a prefix, later entries change nothing. */
  lemma {:induction false} GatherFailurePersists(es: seq<Entry>, k: nat)
    requires k <= |es| && Gather(es[..k]).Failure?
    ensures Gather(es) == Gather(es[..k])
    decreases |es| - k
  {
    if k < |es| {
      var pre := es[..|es| - 1];
      assert pre[..k] == es[..k];
      GatherFailurePersists(pre, k);
    } else {
      assert es[..k] == es;
    }
  }

  /** The dictionary after one more data line. */
  lemma CollectSnoc(rows: seq<string>, i: nat)
    requires i < |rows|
    ensures var prev := Collect(rows[..i]); var p := ParseRow(rows[i]);
      Collect(rows[..i + 1]) ==
        if prev.Failure? then prev
        else if p.Failure? then Failure(p.error)
        else AddRun(prev.value, p.value.0, p.value.1, rows[i])
  {
    var es := Checked(rows[..i + 1]);
    assert es[..i] == Checked(rows[..i]);
    assert es[i] == (rows[i], ParseRow(rows[i]));
  }

  /** Once a data line is rejected, the lines after it change nothing. */
  lemma CollectFailurePersists(rows: seq<string>, k: nat)
    requires k <= |rows| && Collect(rows[..k]).Failure?
    ensures Collect(rows) == Collect(rows[..k])
  {
    var es := Checked(rows);
    assert es[..k] == Checked(rows[..k]);
    GatherFailurePersists(es, k);
  }

  /**
    One step of the loop over the data lines: a rejected line or a repeated run ends the whole
    loop with its error, and any other line files its run under its sample.
   */
  lemma CollectStep(rows: seq<string>, i: nat, m: map<string, seq<Info>>)
    requires i < |rows| && Collect(rows[..i]) == Success(m)
    ensures var p := ParseRow(rows[i]);
      if p.Failure? then Collect(rows) == Failure(p.error)
      else if p.value.0 in m && p.value.1 in m[p.value.0] then Collect(rows) == Failure(DuplicateRow(rows[i]))
      else Collect(rows[..i + 1]) == AddRun(m, p.value.0, p.value.1, rows[i])
  {
    CollectSnoc(rows, i);
    if Collect(rows[..i + 1]).Failure? {
      CollectFailurePersists(rows, i + 1);
    }
  }

  /** The sorted sample names are all keys of the dictionary. */
  lemma SortedKeysIn(m: map<string, seq<Info>>)
    ensures KeysIn(m, SortedSeq(m.Keys))
  {
    var ks := SortedSeq(m.Keys);
    forall i | 0 <= i < |ks| ensures ks[i] in m {
      assert ks[i] in ks;
    }
  }

  /** The dictionary's samples in sorted order, each with its runs. */
  ghost function SortedGroups(m: map<string, seq<Info>>): (gs: seq<Group>)
    ensures |gs| == |m|
    ensures forall a, b :: 0 <= a < b < |gs| ==> Less(gs[a].0, gs[b].0)
    ensures forall i :: 0 <= i < |gs| ==> gs[i].0 in m && gs[i].1 == m[gs[i].0]
    ensures forall k :: k in m ==> exists i :: 0 <= i < |gs| && gs[i].0 == k
  {
    SortedKeysIn(m);
    var ks := SortedSeq(m.Keys);
    assert |m.Keys| == |m|;
    var gs := Groups(m, ks);
    assert forall k :: k in m ==> k in ks;
    gs
  }

  /**
    What follows the loop over the data lines: an error from it, no entries, or the output
    sheet (the header row, then each sample's rows in sorted order of sample names).
   */
  ghost function Finish(collected: Result<map<string, seq<Info>>, SheetError>): Result<seq<seq<string>>, SheetError> {
    var m :- collected;
    if |m| == 0 then Failure(NoEntries)
    else
      var body :- Render(SortedGroups(m));
      Success([OutputHeader] + body)
  }

  /** The whole check: the header, then every data line, then the output sheet. */
  ghost function Validate(lines: seq<string>): Result<seq<seq<string>>, SheetError> {
    var header := if lines == [] then "" else lines[0];
    var rows := if lines == [] then [] else lines[1..];
    if !HeaderOk(header) then Failure(BadHeader(HeaderFields(header)))
    else Finish(Collect(rows))
  }

  /** The loop over the data lines: each is checked and filed under its sample, the first error ends it. */
  method MapSamples(rows: seq<string>) returns (r: Result<map<string, seq<Info>>, SheetError>)
    ensures r == Collect(rows)
  {
    var mapping: map<string, seq<Info>> := map[];
    var i := 0;
    while i < |rows|
      invariant 0 <= i <= |rows|
      invariant Collect(rows[..i]) == Success(mapping)
    {
      var parsed := ParseRow(rows[i]);
      CollectStep(rows, i, mapping);
      if parsed.Failure? {
        return Failure(parsed.error);
      }
      var sample := parsed.value.0;
      var info := parsed.value.1;
      if sample !in mapping {
        mapping := mapping[sample := [info]];
      } else if info in mapping[sample] {
        return Failure(DuplicateRow(rows[i]));
      } else {
        mapping := mapping[sample := mapping[sample] + [info]];
      }
      i := i + 1;
    }
    assert rows[..i] == rows;
    return Success(mapping);
  }

  /** The rewriting of one `val` in that loop: fastq_1, then fastq_2, each unless it already ends in `.gz`. */
  method RewritePaths(val: Info) returns (r: Info)
    ensures r == RewriteInfo(val)
  {
    var forward := val[1];
    if !EndsWith(forward, ".gz") {
      forward := SubSuffix(forward, "fastq", ".fastq.gz");
      forward := SubSuffix(forward, "fq", ".fq.gz");
    }
    var reverse := val[2];
    if !EndsWith(reverse, ".gz") {
      reverse := SubSuffix(reverse, "fastq", ".fastq.gz");
      reverse := SubSuffix(reverse, "fq", ".fq.gz");
    }
    r := val[1 := forward][2 := reverse];
  }

  /** The loop writing one sample's runs, re-suffixing the read paths of each `val` in turn. */
  method WriteSample(sample: string, runs: seq<Info>) returns (out: seq<seq<string>>)
    ensures out == SampleRows(sample, runs)
  {
    out := [];
    var t := 0;
    while t < |runs|
      invariant 0 <= t <= |runs|
      invariant out == SampleRows(sample, runs[..t])
    {
      var val := RewritePaths(runs[t]);
      assert runs[..t + 1][..t] == runs[..t];
      out := out + [[sample] + val];
      t := t + 1;
    }
    assert runs[..t] == runs;
  }

  /** The loop over the sorted samples: each sample's runs must agree on the data type, then are written. */
  method WriteSamples(mapping: map<string, seq<Info>>, ks: seq<string>) returns (r: Result<seq<seq<string>>, SheetError>)
    requires KeysIn(mapping, ks)
    ensures r == Render(Groups(mapping, ks))
  {
    ghost var gs := Groups(mapping, ks);
    var out: seq<seq<string>> := [];
    var j := 0;
    while j < |ks|
      invariant 0 <= j <= |ks|
      invariant Render(gs[..j]) == Success(out)
    {
      var sample := ks[j];
      var runs := mapping[sample];
      assert gs[j] == (sample, runs);
      RenderSnoc(gs, j);
      if !SameDatatype(runs) {
        RenderFailurePersists(gs, j + 1);
        return Failure(MixedDatatype(sample));
      }
      var written := WriteSample(sample, runs);
      out := out + written;
      j := j + 1;
    }
    assert gs[..j] == gs;
    return Success(out);
  }

  /** `check_samplesheet`: the header check, the loop over the data lines, then the output in sorted sample order. */
  method CheckSamplesheet(lines: seq<string>) returns (r: Result<seq<seq<string>>, SheetError>)
    ensures r == Validate(lines)
  {
    var header := if lines == [] then "" else lines[0];
    if !HeaderOk(header) {
      return Failure(BadHeader(HeaderFields(header)));
    }
    var rows := if lines == [] then [] else lines[1..];
    var collected := MapSamples(rows);
    if collected.Failure? {
      return Failure(collected.error);
    }
    var mapping := collected.value;
    if |mapping| == 0 {
      return Failure(NoEntries);
    }
    var ks := SortedKeys(mapping.Keys);
    SortedKeysIn(mapping);
    var body := WriteSamples(mapping, ks);
    if body.Failure? {
      return Failure(body.error);
    }
    return Success([OutputHeader] + body.value);
  }

  /**
    The rendered groups of a dictionary come sorted by sample name, and the rows of one
    sample agree on the single-end flag.
   */
  lemma SheetShape(m: map<string, seq<Info>>)
    requires Render(SortedGroups(m)).Success?
    ensures var body := Render(SortedGroups(m)).value;
      && (forall a, b :: 0 <= a < b < |body| ==> LessEq(body[a][0], body[b][0]))
      && (forall a, b :: 0 <= a < |body| && 0 <= b < |body| && body[a][0] == body[b][0] ==> body[a][1] == body[b][1])
  {
    RenderShape(SortedGroups(m));
  }

  /** Groups in strictly increasing order of sample name render to sorted rows whose flags agree per sample. */
  lemma RenderShape(gs: seq<Group>)
    requires Render(gs).Success?
    requires forall a, b :: 0 <= a < b < |gs| ==> Less(gs[a].0, gs[b].0)
    ensures var body := Render(gs).value;
      && (forall a, b :: 0 <= a < b < |body| ==> LessEq(body[a][0], body[b][0]))
      && (forall a, b :: 0 <= a < |body| && 0 <= b < |body| && body[a][0] == body[b][0] ==> body[a][1] == body[b][1])
  {
    var body := Render(gs).value;
    RenderSorted(gs);
    forall i, j | 0 <= i < j < |gs| ensures gs[i].0 != gs[j].0 {
      LessIrreflexive(gs[i].0);
    }
    forall a, b | 0 <= a < |body| && 0 <= b < |body| && body[a][0] == body[b][0]
      ensures body[a][1] == body[b][1]
    {
      RenderSameFlag(gs, a, b);
    }
  }

  /** Every rendered row is a run of the dictionary under its sample name. */
  lemma SheetOnly(m: map<string, seq<Info>>, row: seq<string>)
    requires Render(SortedGroups(m)).Success? && row in Render(SortedGroups(m)).value
    ensures exists k, t :: k in m && 0 <= t < |m[k]| && row == OutRow(k, m[k][t])
  {
    var gs := SortedGroups(m);
    RenderOnly(gs, row);
    var gi, t :| 0 <= gi < |gs| && 0 <= t < |gs[gi].1| && row == OutRow(gs[gi].0, gs[gi].1[t]);
    assert gs[gi].0 in m && gs[gi].1 == m[gs[gi].0];
  }

  /** A dictionary whose samples each keep to one datatype renders without error. */
  lemma SheetAccepts(m: map<string, seq<Info>>)
    requires forall k :: k in m ==> SameDatatype(m[k])
    ensures Render(SortedGroups(m)).Success?
  {
    var gs := SortedGroups(m);
    forall gi | 0 <= gi < |gs| ensures SameDatatype(gs[gi].1) {
      assert gs[gi].0 in m;
    }
    RenderFails(gs);
  }

  /** A successful check starts with the output header, then the rendered rows. */
  lemma FinishUnfold(c: Result<map<string, seq<Info>>, SheetError>)
    requires Finish(c).Success?
    ensures c.Success? && |c.value| > 0 && Render(SortedGroups(c.value)).Success?
    ensures Finish(c).value == [OutputHeader] + Render(SortedGroups(c.value)).value
  {
  }

  /**
    A successful check writes the output header, then rows of ten fields sorted by sample
    name, and the rows of one sample agree on the single-end flag.
   */
  lemma FinishShape(c: Result<map<string, seq<Info>>, SheetError>)
    requires Finish(c).Success?
    ensures var out := Finish(c).value;
      && |out| > 0 && out[0] == OutputHeader
      && (forall a :: 0 <= a < |out| ==> |out[a]| == |OutputHeader|)
      && (forall a, b :: 1 <= a < b < |out| ==> LessEq(out[a][0], out[b][0]))
      && (forall a, b :: 1 <= a < |out| && 1 <= b < |out| && out[a][0] == out[b][0] ==> out[a][1] == out[b][1])
  {
    FinishUnfold(c);
    SheetShape(c.value);
    HeaderThenBody(Render(SortedGroups(c.value)).value, Finish(c).value);
  }

  /** The sheet's properties carry over from the rendered rows once the header is put in front. */
  lemma HeaderThenBody(body: seq<seq<string>>, out: seq<seq<string>>)
    requires out == [OutputHeader] + body
    requires forall a :: 0 <= a < |body| ==> |body[a]| == |OutputHeader|
    requires forall a, b :: 0 <= a < b < |body| ==> LessEq(body[a][0], body[b][0])
    requires forall a, b :: 0 <= a < |body| && 0 <= b < |body| && body[a][0] == body[b][0] ==> body[a][1] == body[b][1]
    ensures |out| > 0 && out[0] == OutputHeader
    ensures forall a :: 0 <= a < |out| ==> |out[a]| == |OutputHeader|
    ensures forall a, b :: 1 <= a < b < |out| ==> LessEq(out[a][0], out[b][0])
    ensures forall a, b :: 1 <= a < |out| && 1 <= b < |out| && out[a][0] == out[b][0] ==> out[a][1] == out[b][1]
  {
    forall a | 1 <= a < |out| ensures out[a] == body[a - 1] { }
  }

  /** Where the run an accepted entry was filed under sits among the sorted groups. */
  lemma GroupOf(es: seq<Entry>, i: nat) returns (gi: nat, t: nat)
    requires Gather(es).Success? && i < |es|
    ensures es[i].1.Success?
    ensures var gs := SortedGroups(Gather(es).value); var p := es[i].1.value;
      gi < |gs| && t < |gs[gi].1| && gs[gi].0 == p.0 && gs[gi].1[t] == p.1
  {
    GatherAccepted(es);
    var p := es[i].1.value;
    RunsOfMembers(es, p.0, p.1);
    GatherRuns(es, p.0);
    var m := Gather(es).value;
    var gs := SortedGroups(m);
    gi :| 0 <= gi < |gs| && gs[gi].0 == p.0;
    t :| 0 <= t < |m[p.0]| && m[p.0][t] == p.1;
  }

  /** Every entry of a successful check appears in the output, its paths re-suffixed. */
  lemma FinishKeepsRuns(es: seq<Entry>, i: nat)
    requires Finish(Gather(es)).Success? && i < |es|
    ensures es[i].1.Success?
    ensures OutRow(es[i].1.value.0, es[i].1.value.1) in Finish(Gather(es)).value[1..]
  {
    var gi, t := GroupOf(es, i);
    var gs := SortedGroups(Gather(es).value);
    RenderKeeps(gs, gi, t);
    assert Finish(Gather(es)).value[1..] == Render(gs).value;
  }

  /** Every output row after the header comes from an accepted entry. */
  lemma FinishOnlyRuns(es: seq<Entry>, row: seq<string>)
    requires Finish(Gather(es)).Success? && row in Finish(Gather(es)).value[1..]
    ensures exists i :: 0 <= i < |es| && es[i].1.Success? && row == OutRow(es[i].1.value.0, es[i].1.value.1)
  {
    var c := Gather(es);
    FinishUnfold(c);
    var m := c.value;
    assert Finish(c).value[1..] == Render(SortedGroups(m)).value;
    SheetOnly(m, row);
    var k, t :| k in m && 0 <= t < |m[k]| && row == OutRow(k, m[k][t]);
    GatherRuns(es, k);
    assert m[k][t] in RunsOf(es, k);
    RunsOfMembers(es, k, m[k][t]);
  }

  /** Two accepted entries with the same sample, one paired-end and one single-end, fail the check. */
  lemma FinishRejectsMixed(es: seq<Entry>, i: nat, j: nat)
    requires i < |es| && j < |es| && es[i].1.Success? && es[j].1.Success?
    requires es[i].1.value.0 == es[j].1.value.0 && es[i].1.value.1[0] != es[j].1.value.1[0]
    ensures Finish(Gather(es)).Failure?
  {
    if Gather(es).Success? {
      var m := Gather(es).value;
      var gi, ti := GroupOf(es, i);
      var gj, tj := GroupOf(es, j);
      SortedGroupsDistinct(m, gi, gj);
      MixedGroupFails(SortedGroups(m), gi, ti, tj);
    }
  }

  /** Each sample heads one group only. */
  lemma SortedGroupsDistinct(m: map<string, seq<Info>>, gi: nat, gj: nat)
    requires gi < |SortedGroups(m)| && gj < |SortedGroups(m)|
    requires SortedGroups(m)[gi].0 == SortedGroups(m)[gj].0
    ensures gi == gj
  {
    var gs := SortedGroups(m);
    if gi < gj {
      LessIrreflexive(gs[gi].0);
    } else if gj < gi {
      LessIrreflexive(gs[gj].0);
    }
  }

  /** A group holding a paired-end and a single-end run stops the output. */
  lemma MixedGroupFails(gs: seq<Group>, gi: nat, ti: nat, tj: nat)
    requires gi < |gs| && ti < |gs[gi].1| && tj < |gs[gi].1|
    requires gs[gi].1[ti][0] != gs[gi].1[tj][0]
    ensures Render(gs).Failure?
  {
    assert !SameDatatype(gs[gi].1);
    RenderFails(gs);
  }

  /** No two accepted entries of one sample disagree on the single-end flag. */
  predicate FlagsAgree(es: seq<Entry>) {
    forall i, j :: 0 <= i < |es| && 0 <= j < |es| && es[i].1.Success? && es[j].1.Success? ==>
      (es[i].1.value.0 == es[j].1.value.0 ==> es[i].1.value.1[0] == es[j].1.value.1[0])
  }

  /** Every run filed under a sample has the flag of the sample's first run, when the flags agree. */
  lemma GatherRunFlag(es: seq<Entry>, k: string, t: nat)
    requires Gather(es).Success? && FlagsAgree(es)
    requires k in Gather(es).value && t < |Gather(es).value[k]|
    ensures Gather(es).value[k][t][0] == Gather(es).value[k][0][0]
  {
    var runs := Gather(es).value[k];
    GatherRuns(es, k);
    RunsOfMembers(es, k, runs[t]);
    RunsOfMembers(es, k, runs[0]);
  }

  /** When the flags agree, every sample keeps to one datatype. */
  lemma GatherSameDatatype(es: seq<Entry>)
    requires Gather(es).Success? && FlagsAgree(es)
    ensures forall k :: k in Gather(es).value ==> SameDatatype(Gather(es).value[k])
  {
    var m := Gather(es).value;
    forall k | k in m ensures SameDatatype(m[k]) {
      forall t | 0 <= t < |m[k]| ensures m[k][t][0] == m[k][0][0] {
        GatherRunFlag(es, k, t);
      }
    }
  }

  /**
    Entries that are all accepted, with no repeated run and no sample mixing paired-end and
    single-end data, at least one of them, pass the check.
   */
  lemma FinishAccepts(es: seq<Entry>)
    requires |es| > 0
    requires forall i :: 0 <= i < |es| ==> es[i].1.Success?
    requires forall i, j :: 0 <= i < j < |es| ==> es[i].1 != es[j].1
    requires FlagsAgree(es)
    ensures Finish(Gather(es)).Success?
  {
    GatherAccepts(es);
    var c := Gather(es);
    var m := c.value;
    var p := es[0].1.value;
    GatherRuns(es, p.0);
    RunsOfMembers(es, p.0, p.1);
    assert p.0 in m;
    GatherSameDatatype(es);
    SheetAccepts(m);
    FinishRenders(c, p.0);
  }

  /** A loop that ends with a non-empty dictionary whose groups all render gives the header and those rows. */
  lemma FinishRenders(c: Result<map<string, seq<Info>>, SheetError>, k: string)
    requires c.Success? && k in c.value && Render(SortedGroups(c.value)).Success?
    ensures Finish(c) == Success([OutputHeader] + Render(SortedGroups(c.value)).value)
  {
    assert c.value.Keys != {};
  }

  /** Past a good header, the check is what follows the loop over the checked data lines. */
  lemma ValidateFinish(lines: seq<string>)
    requires |lines| > 0 && HeaderOk(lines[0])
    ensures Validate(lines) == Finish(Gather(Checked(lines[1..])))
  {
  }

  /** The checked entry of data line `i`. */
  lemma CheckedLine(lines: seq<string>, i: nat)
    requires 1 <= i < |lines|
    ensures Checked(lines[1..])[i - 1] == (lines[i], ParseRow(lines[i]))
  {
    assert lines[1..][i - 1] == lines[i];
  }

  /** The loop over the data lines stops at the first rejected line, with that line's error. */
  lemma CollectFirstError(rows: seq<string>, k: nat)
    requires k < |rows| && Collect(rows[..k]).Success? && ParseRow(rows[k]).Failure?
    ensures Collect(rows) == Failure(ParseRow(rows[k]).error)
  {
    CollectSnoc(rows, k);
    CollectFailurePersists(rows, k + 1);
  }

  /** Past a good header, the first rejected data line decides the error of the whole check. */
  lemma ValidateFirstError(lines: seq<string>, k: nat)
    requires 1 <= k < |lines| && HeaderOk(lines[0])
    requires Collect(lines[1..k]).Success? && ParseRow(lines[k]).Failure?
    ensures Validate(lines) == Failure(ParseRow(lines[k]).error)
  {
    assert lines[1..][..k - 1] == lines[1..k] && lines[1..][k - 1] == lines[k];
    CollectFirstError(lines[1..], k - 1);
  }

  /** Two data lines that give the same sample and the same run stop the loop over the data lines with an error. */
  lemma CollectRejectsDuplicates(rows: seq<string>, i: nat, j: nat)
    requires i < j < |rows|
    requires ParseRow(rows[i]).Success? && ParseRow(rows[i]) == ParseRow(rows[j])
    ensures Collect(rows).Failure?
  {
    var es := Checked(rows);
    assert es[i].1 == ParseRow(rows[i]) && es[j].1 == ParseRow(rows[j]);
    GatherRejectsDuplicates(es, i, j);
  }

  /** A header that does not start with the nine expected names fails the check, and so does an empty file. */
  lemma ValidateRejectsHeader(lines: seq<string>)
    requires lines == [] || !HeaderOk(lines[0])
    ensures Validate(lines) == Failure(BadHeader(HeaderFields(if lines == [] then "" else lines[0])))
  {
    assert HeaderFields("") == [""];
  }

  /** A sheet with a good header and no data lines has no entries to process. */
  lemma ValidateNoEntries(lines: seq<string>)
    requires |lines| == 1 && HeaderOk(lines[0])
    ensures Validate(lines) == Failure(NoEntries)
  {
    assert lines[1..] == [];
    assert Collect([]) == Success(map[]);
  }

  /**
    A sheet with a good header whose data lines are all accepted, with no repeated run
    and no sample mixing paired-end and single-end data, passes the check.
   */
  lemma ValidateAccepts(lines: seq<string>)
    requires |lines| > 1 && HeaderOk(lines[0])
    requires forall i :: 1 <= i < |lines| ==> ParseRow(lines[i]).Success?
    requires forall i, j :: 1 <= i < j < |lines| ==> ParseRow(lines[i]) != ParseRow(lines[j])
    requires forall i, j :: 1 <= i < |lines| && 1 <= j < |lines| ==>
      (ParseRow(lines[i]).value.0 == ParseRow(lines[j]).value.0 ==>
         ParseRow(lines[i]).value.1[0] == ParseRow(lines[j]).value.1[0])
    ensures Validate(lines).Success?
  {
    ValidateFinish(lines);
    var es := Checked(lines[1..]);
    forall i | 0 <= i < |es| ensures es[i].1 == ParseRow(lines[i + 1]) {
      CheckedLine(lines, i + 1);
    }
    assert forall i :: 0 <= i < |es| ==> es[i].1.Success?;
    forall i, j | 0 <= i < j < |es| ensures es[i].1 != es[j].1 {
      assert es[i].1 == ParseRow(lines[i + 1]) && es[j].1 == ParseRow(lines[j + 1]);
    }
    assert FlagsAgree(es) by {
      forall i, j | 0 <= i < |es| && 0 <= j < |es| && es[i].1.value.0 == es[j].1.value.0
        ensures es[i].1.value.1[0] == es[j].1.value.1[0]
      {
        assert es[i].1 == ParseRow(lines[i + 1]) && es[j].1 == ParseRow(lines[j + 1]);
      }
    }
    FinishAccepts(es);
  }

  /** The last character of a join is the last character of the last part. */
  lemma {:induction false} JoinLast(parts: seq<string>, sep: char)
    requires |parts| >= 1 && |parts[|parts| - 1]| > 0
    ensures var j := Join(parts, sep); |j| > 0 && j[|j| - 1] == parts[|parts| - 1][|parts[|parts| - 1]| - 1]
  {
    if |parts| > 1 {
      JoinLast(parts[1..], sep);
    }
  }

  /** Unquoting leaves fields alone that neither start nor end with a double quote. */
  lemma {:induction false} UnquotePlain(raw: seq<string>)
    requires forall i :: 0 <= i < |raw| ==> raw[i] == [] || (raw[i][0] != '"' && raw[i][|raw[i]| - 1] != '"')
    ensures Unquote(raw) == raw
  {
    if raw != [] {
      TrimUnchanged(raw[0], {'"'});
      UnquotePlain(raw[1..]);
    }
  }

  /**
    A line written as fields joined with commas and ended by a newline reads back as those
    fields, when they hold no comma, are not quoted and the line does not start or end with
    whitespace.
   */
  lemma HeaderFieldsOfJoin(parts: seq<string>)
    requires |parts| >= 1 && |parts[0]| > 0 && |parts[|parts| - 1]| > 0
    requires parts[0][0] !in Whitespace && parts[|parts| - 1][|parts[|parts| - 1]| - 1] !in Whitespace
    requires forall i :: 0 <= i < |parts| ==> ',' !in parts[i] && '"' !in parts[i]
    ensures HeaderFields(Join(parts, ',') + "\n") == parts
  {
    var j := Join(parts, ',');
    var line := j + "\n";
    JoinLast(parts, ',');
    assert line[0] == j[0];
    assert TrimLeft(line, Whitespace) == line;
    assert line[..|line| - 1] == j;
    assert TrimRight(line, Whitespace) == TrimRight(j, Whitespace);
    TrimUnchanged(j, Whitespace);
    SplitJoin(parts, ',');
    forall i | 0 <= i < |parts| ensures parts[i] == [] || (parts[i][0] != '"' && parts[i][|parts[i]| - 1] != '"') {
      if parts[i] != [] {
        assert parts[i][0] in parts[i];
        assert parts[i][|parts[i]| - 1] in parts[i];
      }
    }
    UnquotePlain(parts);
  }

  /**
    The header line of the output sheet is not a valid input header: its second column is
    `single_end`, not `fastq_1`, so the output cannot be checked again.
   */
  lemma OutputRejectedAsInput()
    ensures !HeaderOk(Join(OutputHeader, ',') + "\n")
  {
    OutputHeaderPlain();
    HeaderFieldsOfJoin(OutputHeader);
    assert OutputHeader[1] != Header[1];
  }

  /** The output header's names hold no comma, no quote and no surrounding whitespace. */
  lemma OutputHeaderPlain()
    ensures |OutputHeader[0]| > 0 && OutputHeader[0][0] !in Whitespace
    ensures |OutputHeader[9]| > 0 && OutputHeader[9][|OutputHeader[9]| - 1] !in Whitespace
    ensures forall i :: 0 <= i < |OutputHeader| ==> ',' !in OutputHeader[i] && '"' !in OutputHeader[i]
  {
  }
}
