# Quaisar-H samplesheet and GRiPHin table logic in Dafny

This project models three Python scripts of the Quaisar-H / PHoeNIx pipeline and proves
properties of the model.

**`bin/check_samplesheet_qc.py`: `check_samplesheet`** (module `Samplesheet`)
- It validates a samplesheet line by line:
  - a header check;
  - column-count and populated-count checks;
  - a sample name, with its spaces turned into `_`;
  - no space in a read path;
  - paired-end (`"0"`) or single-end (`"1"`) classification;
  - rejection of duplicate runs;
  - a single datatype per sample.
- It writes the normalised sheet: the 10-column header, then samples in sorted order, with read paths re-suffixed by regular expressions.
- Every `print_error`/`sys.exit(1)` is a `Failure` carrying a `SheetError`.
- The imperative loops are methods proved equal to specification functions:
  - `MapSamples` over the data lines;
  - `WriteSamples` and `WriteSample` over the sorted samples;
  - `RewritePaths` for the in-place rewrite of `val[1]` and `val[2]`;
  - `Ordering.SortedKeys` for `sorted`.
- The lemmas about those functions state the promised behaviour.

**`bin/combine_GRiPHins.py`** (modules `Frames`, `CombineGriphins`)
- A pandas table is a `Frame`: column names, plus rows of `Option<string>` cells.
  - The first column (`UNI`) is the row key.
  - A missing cell (`NaN`/`pd.NA`) is `None`.
- `Frames.Table` is a class over such a frame, for the operations that change a table in place (`df[col] = pd.NA`, `df.update`).
- Modelled operations:
  - `split_dataframe`;
  - `combine_gene_dataframes`, which is `combine_first` plus the `fillna` loop;
  - `combine_qc_dataframes`, which is `update` plus `concat`;
  - `add_blank_centar_columns`;
  - `check_column_presence`;
  - `add_and_concatenate`;
  - `detect_footer_lines`, over an abstract grid of worksheet cells;
  - `update_centar_columns`, over an array of name lists that it overwrites in place.
- A raised `ValueError` or `IndexError` is a `Failure` carrying a `CombineError`.

**`bin/species_specific_griphin.py`** (module `SpeciesSpecific`)
- `transform_value`.
- The column work of `clean_and_format_centar_dfs`:
  - the in-place rewrite loop over the identity columns;
  - dropping the presence columns;
  - the three regular-expression renames;
  - the blank-column drop;
  - the four substring categories and the `list.remove` calls;
  - the output column order.
- The directory split of `create_centar_combined_df`.
- The per-line ShigaPass parse, the row-by-row `concat` loop and the species-name mapping of `create_shiga_df`.

`Strings` models the Python string operations the scripts use: `strip`, `split`, `join`, `replace`, `endswith` and `in`. `Ordering` models Python's string `<` and `sorted`.

Behaviours of the code as written that the model keeps, with lemmas that state them:

- The output sheet's header starts `sample,single_end`, so the checker would reject its own output (`Samplesheet.OutputRejectedAsInput`).
- The `.` in `re.sub(".fastq$", ...)` matches any character, so `x_fastq` becomes `x.fastq.gz` (`Samplesheet.RewriteFastqWildcard`).
- `combine_gene_dataframes` calls `old_df.combine_first(new_df)`.
  - The first argument's present values win, although the comment at `bin/combine_GRiPHins.py:255` says new values take priority.
  - The model follows the code (`CombineGriphins.CombineGeneCells`).
  - Its `fillna` loop can change nothing after `combine_first` (`CombineGriphins.FillNaUnchanged`).
- The second header rename, `r'\[%Nuc_Identity | %Coverage]'`, is an alternation of two literals, not one bracketed literal.
  - A header `gene [%Nuc_Identity | %Coverage]` therefore becomes `gene |` (`SpeciesSpecific.CleanNucCoverageHeader`).
  - This is why the canonical list at `bin/combine_GRiPHins.py:473` contains `'PNimB |'`.
- `update_centar_columns` uses the canonical list at `bin/combine_GRiPHins.py:473`, which differs from the copies elsewhere in the file.

## Model

| member | source | states |
|---|---|---|
| Samplesheet.HeaderOk | bin/check_samplesheet_qc.py:63-69 | the header passes exactly when its first nine unquoted fields are `sample,fastq_1,…,amrfinderplus`; extra trailing columns are tolerated |
| Samplesheet.Fields | bin/check_samplesheet_qc.py:73 | a data line always yields at least one field |
| Samplesheet.CountPopulated | bin/check_samplesheet_qc.py:82 | the number of populated fields never exceeds the number of fields |
| Samplesheet.NonePopulated | bin/check_samplesheet_qc.py:82 | no field is counted as populated exactly when every field is empty |
| Samplesheet.TwoPopulated | bin/check_samplesheet_qc.py:82-88 | the count reaches the minimum of two exactly when two different fields are non-empty |
| Samplesheet.ParseRowSpec | bin/check_samplesheet_qc.py:76-118 | a row is accepted exactly when it has at least nine fields, at least two non-empty, a sample name, no space in fastq_1 or fastq_2, and a fastq_1 |
| Samplesheet.ParseRowValue | bin/check_samplesheet_qc.py:91-116 | an accepted row's sample has its spaces replaced by `_`, so it is non-empty and has no space; its flag is "0" exactly when fastq_2 is given and "1" exactly when it is not; its eight paths are kept |
| Samplesheet.ParseRowErrors | bin/check_samplesheet_qc.py:76-118 | a rejected row reports the first failed check in source order: column count, populated count, sample name, space in a read path, invalid combination |
| Samplesheet.RewriteRead | bin/check_samplesheet_qc.py:144-149 | a path already ending in `.gz`, or ending in neither `fastq` nor `fq`, is unchanged; any rewritten path ends in `.gz` |
| Samplesheet.RewriteInfo | bin/check_samplesheet_qc.py:143-149 | only fastq_1 and fastq_2 of a run are rewritten; the flag and the other paths are kept |
| Samplesheet.RewriteFastqWildcard | bin/check_samplesheet_qc.py:145 | the unescaped `.` matches any character: a path ending in `fastq` loses the character before it and gains `.fastq.gz` |
| Samplesheet.RewriteFastq | bin/check_samplesheet_qc.py:145 | a path ending in `.fastq` gains `.gz` |
| Samplesheet.RewriteFq | bin/check_samplesheet_qc.py:146 | a path ending in `.fq` gains `.gz` |
| Samplesheet.AddRun | bin/check_samplesheet_qc.py:120-127 | filing a run fails exactly when the sample already holds an identical run; on success the keys gain the sample, and the run is listed under it |
| Samplesheet.Gather | bin/check_samplesheet_qc.py:120-127 | a successful fold of the checked lines gives every sample at least one run |
| Samplesheet.Collect | bin/check_samplesheet_qc.py:72-127 | the dictionary built from the data lines gives every sample at least one run |
| Samplesheet.RunsOfMembers | bin/check_samplesheet_qc.py:120-127 | a run is listed under a sample exactly when some entry was accepted with that sample and that run |
| Samplesheet.GatherAccepted | bin/check_samplesheet_qc.py:72-127 | when the loop finishes without error, every data line was accepted |
| Samplesheet.GatherRuns | bin/check_samplesheet_qc.py:120-127 | a sample is a key exactly when it has accepted runs, and its list holds those runs in input order |
| Samplesheet.GatherRejectsDuplicates | bin/check_samplesheet_qc.py:124-125 | two data lines with the same sample and the same run make the loop fail |
| Samplesheet.GatherAccepts | bin/check_samplesheet_qc.py:120-127 | accepted lines with no two identical (sample, run) pairs are all filed without error |
| Samplesheet.OutRow | bin/check_samplesheet_qc.py:150 | an output row has ten fields: the sample, then the run's flag, then its paths |
| Samplesheet.SampleRows | bin/check_samplesheet_qc.py:143-150 | a sample writes one row per run, each of ten fields and headed by the sample |
| Samplesheet.SampleRowsAt | bin/check_samplesheet_qc.py:143-150 | the sample's t-th row is its t-th run, re-suffixed |
| Samplesheet.Render | bin/check_samplesheet_qc.py:135-150 | every written row has the ten output columns |
| Samplesheet.RenderFails | bin/check_samplesheet_qc.py:137-139 | writing succeeds exactly when every sample's runs share one flag, and a failure names such a sample |
| Samplesheet.RenderKeeps | bin/check_samplesheet_qc.py:143-150 | every run of every sample is written |
| Samplesheet.RenderOnly | bin/check_samplesheet_qc.py:143-150 | every written row is some sample followed by one of its runs |
| Samplesheet.RenderSorted | bin/check_samplesheet_qc.py:135-150 | with samples in increasing order, the rows come out sorted by sample |
| Samplesheet.RenderSameFlag | bin/check_samplesheet_qc.py:138-150 | rows with the same sample carry the same single-end flag |
| Samplesheet.SortedGroups | bin/check_samplesheet_qc.py:135 | `sorted(keys)`: the dictionary's samples, each exactly once, in strictly increasing order, each with its own runs |
| Samplesheet.MapSamples | bin/check_samplesheet_qc.py:72-127 | the in-place loop that fills the dictionary computes the fold over the data lines, stopping at the first error |
| Samplesheet.RewritePaths | bin/check_samplesheet_qc.py:144-149 | the in-place rewrite of `val[1]` and `val[2]` gives the re-suffixed run |
| Samplesheet.WriteSample | bin/check_samplesheet_qc.py:143-150 | the write loop for one sample produces exactly that sample's rows |
| Samplesheet.WriteSamples | bin/check_samplesheet_qc.py:135-150 | the loop over the sorted samples checks each datatype and writes its rows, as the rendering does |
| Samplesheet.CheckSamplesheet | bin/check_samplesheet_qc.py:59-152 | the whole procedure computes the validation outcome that the lemmas below describe |
| Samplesheet.SheetShape | bin/check_samplesheet_qc.py:135-150 | rendering the dictionary gives rows sorted by sample, and rows with the same sample carry the same flag |
| Samplesheet.SheetOnly | bin/check_samplesheet_qc.py:135-150 | every rendered row is a run of the dictionary under its sample |
| Samplesheet.SheetAccepts | bin/check_samplesheet_qc.py:137-139 | a dictionary whose samples each keep to one datatype renders without error |
| Samplesheet.FinishShape | bin/check_samplesheet_qc.py:134-150 | the output starts with the 10-column header; all rows are ten wide; the data rows are sorted by sample and agree on the flag per sample |
| Samplesheet.FinishKeepsRuns | bin/check_samplesheet_qc.py:120-150 | every accepted data line appears in the output with its paths re-suffixed |
| Samplesheet.FinishOnlyRuns | bin/check_samplesheet_qc.py:120-150 | every output row after the header comes from an accepted data line |
| Samplesheet.FinishRejectsMixed | bin/check_samplesheet_qc.py:137-139 | a paired-end and a single-end line of the same sample make the check fail |
| Samplesheet.GatherRunFlag | bin/check_samplesheet_qc.py:138 | when the lines agree on the flag per sample, every run of a sample has its first run's flag |
| Samplesheet.GatherSameDatatype | bin/check_samplesheet_qc.py:138 | when the lines agree on the flag per sample, every sample passes the datatype check |
| Samplesheet.FinishAccepts | bin/check_samplesheet_qc.py:120-150 | a non-empty list of accepted lines, with no duplicates and one flag per sample, produces an output |
| Samplesheet.CollectFirstError | bin/check_samplesheet_qc.py:72-127 | the loop stops at the first rejected line, with that line's error |
| Samplesheet.ValidateFirstError | bin/check_samplesheet_qc.py:62-127 | past a good header, the first rejected data line decides the error of the whole check |
| Samplesheet.CollectRejectsDuplicates | bin/check_samplesheet_qc.py:124-125 | two data lines that give the same sample and run make the loop fail |
| Samplesheet.ValidateRejectsHeader | bin/check_samplesheet_qc.py:66-69 | a bad header, or an empty file, fails with the header found |
| Samplesheet.ValidateNoEntries | bin/check_samplesheet_qc.py:151-152 | a good header with no data lines fails with "no entries" |
| Samplesheet.ValidateAccepts | bin/check_samplesheet_qc.py:62-150 | a good header, then data lines that are all accepted, pairwise different and flag-consistent per sample, validates |
| Samplesheet.OutputRejectedAsInput | bin/check_samplesheet_qc.py:66-69 | the header line written at line 134 of the same script fails this input header check |
| Samplesheet.OutputHeaderPlain | bin/check_samplesheet_qc.py:134 | no output header field holds a comma or a double quote, and the joined line has no surrounding whitespace, so reading it back gives the ten names |
| Ordering.SortedKeys | bin/check_samplesheet_qc.py:135 | `sorted(keys)` returns the keys exactly once each, in strictly increasing order |
| Ordering.Minimum | bin/check_samplesheet_qc.py:135 | the pass finds an element of the set that is below every other |
| Ordering.SortedUnique | bin/check_samplesheet_qc.py:135 | two strictly sorted lists with the same elements are equal, so the sorted order is determined |
| Ordering.LessTotal | bin/check_samplesheet_qc.py:135 | Python's string order relates any two different strings |
| Strings.Split | bin/check_samplesheet_qc.py:73 | `split` never returns an empty list, and no part contains the separator |
| Strings.JoinSplit | bin/check_samplesheet_qc.py:66 | joining the parts of a split gives back the text |
| Strings.SplitJoin | bin/check_samplesheet_qc.py:134 | splitting the text of a join gives back the parts, when no part holds the separator |
| Strings.TrimLeftSpec | bin/check_samplesheet_qc.py:73 | `lstrip` removes exactly the longest prefix of stripped characters |
| Strings.TrimRightSpec | bin/check_samplesheet_qc.py:73 | `rstrip` removes exactly the longest suffix of stripped characters |
| Strings.ReplaceCharRemoves | bin/check_samplesheet_qc.py:92 | after `replace(" ", "_")` no space is left |
| Frames.FindFirst | bin/combine_GRiPHins.py:288-289 | `list.index` finds the first position of the name: no earlier position holds it |
| Frames.RowOfKey | bin/combine_GRiPHins.py:247-248 | the row found under a key has that key, and is the first row with it |
| Frames.ConcatCells | bin/combine_GRiPHins.py:366 | concatenation keeps every row of both tables under its own columns, and is missing in every other column |
| Frames.ConcatLookup | bin/combine_GRiPHins.py:366 | after concatenating rectangular tables every row keeps its cell under every name |
| Frames.ColumnUnionDistinct | bin/combine_GRiPHins.py:359 | the column union of two repeat-free lists is repeat-free |
| Frames.WithBlankCells | bin/combine_GRiPHins.py:298 | adding a blank column keeps the table rectangular and every existing cell in place |
| Frames.UpdatedCells | bin/combine_GRiPHins.py:275 | `update` keeps the columns, keys and shape; a cell takes the other table's present value for the same key and column, and otherwise keeps its own |
| Frames.KeysUpdated | bin/combine_GRiPHins.py:275 | `update` keeps every key |
| Frames.Table.AddBlankColumn | bin/combine_GRiPHins.py:298 | the table gains the name as its last column, with a missing cell in every row, and nothing else changes |
| Frames.Table.Update | bin/combine_GRiPHins.py:275 | the table becomes its update by the other table |
| CombineGriphins.SplitDataframeFails | bin/combine_GRiPHins.py:344-352 | the split succeeds exactly when the first column is `UNI` and the split column is named exactly once; an absent name is the `KeyError` of `get_loc`, a repeated one the `TypeError` of `range` over the mask `get_loc` then returns |
| CombineGriphins.SplitDataframeShape | bin/combine_GRiPHins.py:350-352 | both halves start with `UNI`, keep every row and stay rectangular |
| CombineGriphins.SplitDataframeColumns | bin/combine_GRiPHins.py:350-352 | the second half's columns are `UNI` then the split column; the first half's columns plus the second's without `UNI` rebuild the input columns |
| CombineGriphins.SplitDataframeFirstHalf | bin/combine_GRiPHins.py:347-350 | the first half is `UNI` followed by the columns strictly between `UNI` and the split column |
| CombineGriphins.SplitDataframeOnce | bin/combine_GRiPHins.py:347-352 | a split column other than `UNI` is absent from the first half and stands once in the second, right after `UNI` |
| CombineGriphins.SplitDataframeRows | bin/combine_GRiPHins.py:350-352 | each row of the first half, followed by the same row of the second half without its key, is the original row |
| CombineGriphins.RowsNotInKeys | bin/combine_GRiPHins.py:277 | a key survives `~isin` exactly when the table has it and the other key list does not |
| CombineGriphins.CombineGeneDataframes | bin/combine_GRiPHins.py:238-268 | the method (`combine_first`, the in-place `fillna` loop, `reset_index`) computes the merge that the lemmas below describe |
| CombineGriphins.CombineGeneFails | bin/combine_GRiPHins.py:242-243 | the merge fails exactly when either table does not start with `UNI`, and the new table's error is reported first |
| CombineGriphins.CombineGeneKeys | bin/combine_GRiPHins.py:252-256 | the merged keys are those of both tables, and `samples_to_add` is exactly the new table's keys that the old one lacks |
| CombineGriphins.CombineGeneCells | bin/combine_GRiPHins.py:256 | each non-key cell keeps the first (old) table's present value and otherwise takes the second table's |
| CombineGriphins.FillNaUnchanged | bin/combine_GRiPHins.py:259-261 | the `fillna` back-fill loop changes nothing after `combine_first` |
| CombineGriphins.CombineQcDataframes | bin/combine_GRiPHins.py:270-280 | the method (in-place `update`, then `concat`) computes the QC merge that the lemmas below describe |
| CombineGriphins.CombineQcFails | bin/combine_GRiPHins.py:270-273 | the QC merge fails exactly when a table has no columns or does not start with `UNI`, the first table reported first |
| CombineGriphins.CombineQcShared | bin/combine_GRiPHins.py:275 | for a key of the first table, each cell under one of the first table's non-key columns takes the second table's present value and otherwise keeps the first's |
| CombineGriphins.CombineQcSharedNewColumn | bin/combine_GRiPHins.py:275-277 | `update` adds no column, so for a key of the first table a column only the second table has is missing after the merge, the second table's value dropped |
| CombineGriphins.CombineQcKeys | bin/combine_GRiPHins.py:277 | the result's keys are the first table's keys in order, then the second table's new keys |
| CombineGriphins.CombineQcAdded | bin/combine_GRiPHins.py:277 | a key only the second table has brings that table's row, every cell kept |
| CombineGriphins.AddBlanksColumns | bin/combine_GRiPHins.py:294-298 | blank-filling keeps the old columns as a prefix, makes every listed name present and adds no other name |
| CombineGriphins.AddBlanksRows | bin/combine_GRiPHins.py:296-298 | blank-filling keeps every row and key, and only appends missing cells |
| CombineGriphins.AddBlankCentarColumns | bin/combine_GRiPHins.py:282-299 | fails, leaving `df` unchanged, exactly when `Toxinotype` or `AR_Database` is missing; otherwise `df` gets the block `[Toxinotype, AR_Database)` as blank columns |
| CombineGriphins.CheckColumnPresence | bin/combine_GRiPHins.py:301-340 | returns the flags of the columns as they were before, and only a table lacking `Toxin-A_sub-type`, when the other has it, gets the other's CENTAR block as blanks |
| CombineGriphins.FillCentar | bin/combine_GRiPHins.py:316-328 | fails exactly when the table that supplies the CENTAR block lacks a bound; otherwise only the table without CENTAR is filled, and the union of column names is unchanged |
| CombineGriphins.ColumnPresenceSwap | bin/combine_GRiPHins.py:302-340 | swapping the tables swaps the CENTAR flags and the error, and keeps `phoenix`, `shiga` and `all_centar` |
| CombineGriphins.ColumnPresenceCentar | bin/combine_GRiPHins.py:302-340 | on success: `phoenix` holds exactly when neither table has `BUSCO_Lineage`; `centar_i` holds exactly when table i had `Toxin-A_sub-type`; `all_centar` is their disjunction; `shiga` holds exactly when either table has `ShigaPass_Organism`; a table filled with blanks then holds the whole CENTAR block |
| CombineGriphins.ColumnPresenceErrors | bin/combine_GRiPHins.py:302-325 | the check fails exactly when `BUSCO_Lineage` is in one table only (naming the table that has it) or the table whose CENTAR block is copied lacks `Toxinotype` or `AR_Database` |
| CombineGriphins.AddAndConcatenateFails | bin/combine_GRiPHins.py:357-366 | stacking fails, with the duplicate-labels error of `reindex`, exactly when a table with repeated column names must be laid out anew: the first when the second brings a new name, the second when its columns are not already the union |
| CombineGriphins.AddAndConcatenateShape | bin/combine_GRiPHins.py:357-369 | the columns are the first table's in order, then the second's others, without repeats when neither table repeats a name; the rows are all of the first table's, then all of the second's |
| CombineGriphins.AddAndConcatenateFirst | bin/combine_GRiPHins.py:363-366 | a first-table row keeps its cells and is missing under the added columns |
| CombineGriphins.AddAndConcatenateSecond | bin/combine_GRiPHins.py:364-366 | a second-table row follows all first-table rows; it is kept whole when its columns already are the union, and keeps its cell under each of its names when they do not repeat |
| CombineGriphins.DetectFooterLines | bin/combine_GRiPHins.py:371-387 | the reversed scan with a counter, a flag and `break` computes the footer-line count |
| CombineGriphins.FooterCountInside | bin/combine_GRiPHins.py:378-386 | inside a footer section the scan counts the contiguous footer-like rows at the bottom and stops at the first other row |
| CombineGriphins.FooterRun | bin/combine_GRiPHins.py:375-387 | the result is at least 3; it counts the bottom-most maximal run of footer-like rows, below which no row is footer-like |
| CombineGriphins.DedupSpec | bin/combine_GRiPHins.py:467-469 | removing repeats keeps every name once and adds none |
| CombineGriphins.SetUnionSpec | bin/combine_GRiPHins.py:467-469 | the union of two name lists has no repeats and holds exactly the names of either list |
| CombineGriphins.MatchesFilter | bin/combine_GRiPHins.py:475-481 | over a repeat-free list the nested loops find the canonical names present, in canonical order |
| CombineGriphins.FilterInMembers | bin/combine_GRiPHins.py:475-481 | a name is found exactly when it is canonical and present |
| CombineGriphins.FilterInSameMembers | bin/combine_GRiPHins.py:467-481 | the found names depend only on which names are present, not on their order |
| CombineGriphins.MatchHeadlines | bin/combine_GRiPHins.py:476-481 | the nested loops append each canonical name once for each time it occurs in the list |
| CombineGriphins.MergeColumnNames | bin/combine_GRiPHins.py:465-469 | each list paired with a new list becomes their union in place; lists past the shorter argument are unchanged (`zip`) |
| CombineGriphins.TallyHeadlines | bin/combine_GRiPHins.py:473-482 | the counting loops compute the found headlines and counts, failing unless there are four sections |
| CombineGriphins.UpdateCentarColumns | bin/combine_GRiPHins.py:462-484 | merges the lists in place, then returns the tally of the merged lists |
| CombineGriphins.TallyFound | bin/combine_GRiPHins.py:473-482 | over repeat-free lists, section i's found names are its canonical names present, in canonical order; its count is their number, less one for `UNI` in section 0 |
| SpeciesSpecific.TransformValueKeeps | bin/species_specific_griphin.py:13-24 | a value that is not an all-`NA` triple and does not split into three parts is returned unchanged |
| SpeciesSpecific.TransformTriple | bin/species_specific_griphin.py:14-21 | an identity triple `[nNT\|aAA\|cCOV]` becomes `[nNT/aAA/c]G` |
| SpeciesSpecific.TransformExample | bin/species_specific_griphin.py:17-21 | `[98NT\|98AA\|100COV]` becomes `[98NT/98AA/100]G` |
| SpeciesSpecific.TransformBlank | bin/species_specific_griphin.py:11-23 | a missing value, `NA\|NA\|NA` and `[NA\|NA\|NA]` become the empty string |
| SpeciesSpecific.TransformIdempotent | bin/species_specific_griphin.py:9-24 | a rewritten triple has no bar left, so a second pass keeps it |
| SpeciesSpecific.TransformedCells | bin/species_specific_griphin.py:35-37 | after the loop every row keeps its length; cells in identity columns are rewritten and all others are kept |
| SpeciesSpecific.TransformIdentityColumns | bin/species_specific_griphin.py:35-37 | the in-place loop rewrites exactly the identity columns of the table |
| SpeciesSpecific.DropPresenceSpec | bin/species_specific_griphin.py:39-40 | exactly the names without `presence` are kept, the table stays rectangular, and every kept cell stays under its name |
| SpeciesSpecific.DropBlankSpec | bin/species_specific_griphin.py:46 | a column survives exactly when some row has a non-empty value in it; the table stays rectangular and kept cells are the originals with empty strings made missing |
| SpeciesSpecific.CategoryMembers | bin/species_specific_griphin.py:48-60 | a category holds exactly the names that contain one of its substrings, once each over distinct names |
| SpeciesSpecific.RemoveFirst | bin/species_specific_griphin.py:61-66 | the `if ... in` guard: removing an absent name leaves the list as it is |
| SpeciesSpecific.RemoveFirstSplice | bin/species_specific_griphin.py:61-66 | `list.remove` cuts out the first occurrence and nothing else |
| SpeciesSpecific.RemoveFirstMembers | bin/species_specific_griphin.py:61-66 | over distinct names, removal drops exactly that name |
| SpeciesSpecific.SectionColumns | bin/species_specific_griphin.py:48-67 | the four groups come out in table order; the mutation group lacks the three toxin-mutation columns |
| SpeciesSpecific.SectionedMembers | bin/species_specific_griphin.py:48-58 | over distinct names, the A/B-toxin, other-toxin and ribotype groups hold exactly the names with one of their substrings |
| SpeciesSpecific.MutationsMembers | bin/species_specific_griphin.py:59-67 | over distinct names, the mutation group holds the names with a mutation substring except the three toxin-mutation columns |
| SpeciesSpecific.CleanAndFormatCentar | bin/species_specific_griphin.py:26-75 | rewrites the identity columns in place, then returns the cleaned, reordered table and its four group sizes |
| SpeciesSpecific.FormatCentarShape | bin/species_specific_griphin.py:68-71 | the output columns are `UNI`, `MLST Clade`, then the four groups; there is one row per cleaned row, or none when the cleaned table is empty; rows have the output width |
| SpeciesSpecific.FormatCentarCells | bin/species_specific_griphin.py:71 | each output cell is the cleaned table's cell under the same column name |
| SpeciesSpecific.FormatCentarFails | bin/species_specific_griphin.py:69-71 | selection fails (a `KeyError`) exactly when the cleaned table is non-empty and lacks an ordered column, and the error names those columns |
| SpeciesSpecific.CleanTripleHeader | bin/species_specific_griphin.py:42-44 | a triple-identity header, and a header without suffix, are cleaned to the bare gene name |
| SpeciesSpecific.CleanNucCoverageHeader | bin/species_specific_griphin.py:43 | the unescaped second pattern removes `[%Nuc_Identity ` and ` %Coverage]` separately: `g [%Nuc_Identity \| %Coverage]` becomes `g \|` |
| SpeciesSpecific.SplitDirectorySpec | bin/species_specific_griphin.py:81-87 | the data location has no slash; parent, `/` and data location rebuild the stripped path when it contains a slash, and otherwise the parent is empty and the location is the whole path; the location is empty only for an empty stripped path |
| SpeciesSpecific.LineOrganismFields | bin/species_specific_griphin.py:116-119 | a line of ten or more fields reports field 7, or nothing when field 9 is `Not Shigella/EIEC` plus a newline; a shorter line is an `IndexError` |
| SpeciesSpecific.ShigaRowsSpec | bin/species_specific_griphin.py:111-121 | the rows succeed exactly when every line has ten fields, and then each line gives one row: the sample, its organism and `directory/sample` |
| SpeciesSpecific.GrowLookup | bin/species_specific_griphin.py:121 | the repeated `concat` keeps every earlier row's cells under their names, and each new row holds its values under the ShigaPass names |
| SpeciesSpecific.CreateShigaDf | bin/species_specific_griphin.py:104-129 | the line loop, which mutates `row_data` and grows the table, followed by the mapping, computes the ShigaPass table |
| SpeciesSpecific.ShigaTableKept | bin/species_specific_griphin.py:115-128 | the given rows are kept, with their cells outside the organism column unchanged, and one row is added per data line |
| SpeciesSpecific.ShigaTableAdded | bin/species_specific_griphin.py:111-128 | each added row holds the sample under `WGS_ID`, the line's organism with `SB`/`SD`/`SS`/`SF1-5` expanded, and the stripped directory plus `/` plus the sample under `UNI` |

## Left out

- Gzipping unzipped read files (`bin/check_samplesheet_qc.py:101-109`), `make_dir`, opening, reading and writing files, and `argparse`: file-system I/O. The input is given as its lines, and the output as its rows of fields.
- `print` and warning messages: console output only.
- `read_excels`, `read_excel`, `split_centar_df` and `main` in `bin/combine_GRiPHins.py`: Excel I/O and orchestration.
- The functions imported from `GRiPHin` (`order_ar_gene_columns`, `Combine_dfs`, `write_to_excel`, `convert_excel_to_tsv`, `sort_qc_through_spec2_dataframe`): the GRiPHin module is not part of this model.
- Reading the CENTAR TSV and the three `insert` calls in `create_centar_combined_df`: file I/O. Only the directory split is modelled.
- `double_check_taxa_id`: it relies on `pd.merge` and on `fill_taxa_id`, which is not part of this model.
- Opening the ShigaPass summary: the file is given as its lines, each keeping its newline as `readlines` does.
- pandas cell types: a cell is a string or missing. Numbers, `NaN` and dtype coercion are not modelled.
- CombineGriphins.CombineGeneDataframes: the column and row order that `combine_first` produces is not pinned. pandas sorts the union, and the model keeps the old order followed by the new-only names. The contracts state the key set and every cell, not positions. Likewise `samples_to_add` is listed in the new table's row order, while `index.difference` returns it sorted; only its membership is stated (`CombineGeneKeys`).
- CombineGriphins.CombineQc: tables are keyed by their first column, so a table whose `UNI` column stands elsewhere fails with `FirstColumnNotUni` (`CombineQcUniNotFirst`), where `set_index('UNI')` accepts it and fails only when `UNI` is absent. The callers pass it halves of `split_dataframe`, which always start with `UNI` (bin/combine_GRiPHins.py:344). `Concat` and `Updated` also look a repeated column name up at its first position, where pandas refuses a non-unique column axis.
- SpeciesSpecific.CleanAndFormatCentar: column names that become equal after the header renames (`gyrA` and `Diffbase_gyrA`, or `tcdA` and its `[%Nuc_Identity | %AA_Identity | %Coverage]` form) are read at their first position, where pandas' selection at bin/species_specific_griphin.py:71 returns every column of that name.
- SpeciesSpecific.FormatCentarShape: the width `2 +` the group sizes holds of the model only; when cleaned names repeat, pandas selects every same-named column for each listed name and the source's table is wider.
- SpeciesSpecific.FormatCentarCells: the cell under a repeated cleaned name is the first such column's, where pandas returns all of them.
- SpeciesSpecific.FormatCentar: repeated column names, including names that collide after cleaning, are read at their first position.
- SpeciesSpecific.ShigaTable: a repeated `ShigaPass_Organism` or `UNI` column is read and mapped at its first position only.
- CombineGriphins.CombineGeneDataframes: requires distinct keys in the new table. pandas' behaviour with duplicate index labels is not modelled, and the same applies to the other keyed operations.
- CombineGriphins.SetUnion: Python's `set` iteration order is not modelled. The union keeps first occurrences in order, and `FilterInSameMembers` shows the found headlines do not depend on that order.
- CombineGriphins.Tally: a section count other than four is one `WrongSectionCount` failure. The source's two `IndexError`s (lines 476 and 482) are not distinguished.
- CombineGriphins.FooterLines: a worksheet row with no cells is `None`, where `row[0]` would raise. Cell values are abstracted to blank, text or other.
- Samplesheet.CheckSamplesheet: on a mixed-datatype failure the model returns only the error. The rows the source had already written to the output file before exiting are not modelled.
- Samplesheet: the data-line loop stops at the first error, because `print_error` exits. The properties of the whole check are stated per data line, through `ValidateFinish` and `CheckedLine`.
