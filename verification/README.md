# Data-science homework 1: loading, pruning and bucketing, in Dafny

This project models the data-handling core of three homework scripts.

- `hw1/analyze.py` loads daily page-view tables. It keeps those whose
  labels include `Age`, `Gender`, `Impressions`, `Clicks` and `Signed_In`.
  It then prunes each table with a chain of row masks that rejects a zero
  age, counts the rows seen and dropped, and reports the drop percentage.
- `hw1/analyze_nyt.py` uses the same loader and a pruning chain that keeps a
  zero age. It reads a zero age as "not signed in" and recodes that row's
  gender as -1 (unknown). It stops when no file loaded. It then adds the
  `Age_Group` and `CTR` columns to every pruned frame in place
  (`bin_by_age(df)`).
- `hw1/analyze_shootings.py` copies seven columns of the police-shooting
  table unchanged. It buckets three more through lookup tables: state to
  region, weapon description to GUN/NONE/OTHER, and flight category to
  "was escaping".

How the model is laid out:

- `seqs.dfy` (module `Seqs`) holds the two pandas operations the cleaning is
  built from, as functions on sequences of rows. `Filter` is a boolean-mask
  selection `df[mask]`; `MapSeq` is a row-wise `apply`.
- `page_views.dfy` (module `PageViews`) holds what both page-view scripts
  share:
  - the row and table values, with `None` standing for a NaN cell;
  - the per-column tests;
  - the loader loop, with a file modelled as either a parse failure or a
    parsed table;
  - the row counter and the drop report.
- `analyze.dfy` (module `Analyze`) holds the strict chain and its counting
  loop.
- `analyze_nyt.dfy` (module `AnalyzeNyt`) holds the age bands, the
  click-through rate, the zero-age-tolerant chain with its gender rewrite,
  the pruning loop, and a `Frame` class. The class's `BinByAge` method adds
  the two derived columns in place.
- `shootings.dfy` (module `AnalyzeShootings`) holds the three lookup tables,
  the dictionary lookup that raises `KeyError`, and the column-by-column
  construction of the munged table.

A comparison with NaN is false in pandas. So every row test of a chain
fails on a missing cell, whether or not `dropna` has run.

The central result about the two pruning chains is
`AnalyzeNyt.CleanNytTwiceIsStrict`. Running the zero-age-tolerant chain
twice gives exactly the strict chain of `hw1/analyze.py`: the second pass
meets gender -1 on every zero-age row and drops it. So the later chain is
not idempotent (`AnalyzeNyt.CleanNytNotIdempotent`), while the strict one
is (`Analyze.CleanStrictIdempotent`).

## Model

| member | source | states |
|---|---|---|
| PageViews.Loaded | hw1/analyze.py:24-34 | the kept tables are no more than the files, and each has every required label |
| PageViews.LoadedExactly | hw1/analyze_nyt.py:110-120 | a table is kept if and only if it parsed and its labels include the required ones |
| PageViews.LoadedIsAccepted | hw1/analyze.py:24-34 | seen as sources, the kept tables are exactly the accepted files, in file order |
| PageViews.LoadedInFileOrder | hw1/analyze_nyt.py:110-120 | the kept tables appear in the order the files were enumerated |
| PageViews.LoadTables | hw1/analyze_nyt.py:110-121 | the loading loop keeps the accepted tables in order and reports every other file as skipped, one report per rejected file, so kept plus skipped is the number of files |
| PageViews.RowCountAppend | hw1/analyze.py:59 | `total` is additive: the rows of two lists of tables counted one after the other are the rows of their concatenation |
| PageViews.PruneStep | hw1/analyze.py:59-60 | one turn of a pruning loop adds the next table's rows to the count seen and its pruned rows to the count kept |
| PageViews.DropPercentage | hw1/analyze.py:62 | the report raises a division error exactly when no row was seen; otherwise it is dropped/total times 100, within [0, 100] when 0 <= dropped <= total |
| Seqs.Filter | hw1/analyze.py:43-53 | a mask selection `df[mask]` never adds rows |
| Seqs.FilterMembers | hw1/analyze.py:43-53 | a mask keeps exactly the rows that satisfy it |
| Seqs.FilterIsSubsequence | hw1/analyze.py:43-53 | a mask keeps the surviving rows in their original order |
| Seqs.MapSeq | hw1/analyze_nyt.py:137 | a row-wise `apply` gives one result per row, in order, each the function applied to that row |
| Analyze.CleanStrict | hw1/analyze.py:42-53 | the chain never adds rows |
| Analyze.CleanStrictIsFilter | hw1/analyze.py:42-53 | the six masks in a row select exactly the rows that pass every test, in order |
| Analyze.CleanStrictSurvivors | hw1/analyze.py:42-53 | a row survives if and only if it is an input row with no NaN, a positive age, gender and signed-in flag in [0, 1] and non-negative impressions and clicks; survivors keep input order |
| Analyze.CleanStrictTable | hw1/analyze.py:43-56 | pruning one frame keeps its columns and keeps exactly the rows that pass every test, in order |
| Analyze.CleanStrictIdempotent | hw1/analyze.py:42-53 | pruning a pruned table drops nothing more |
| Analyze.PruneStrict | hw1/analyze.py:39-61 | `total` is the row count of the loaded tables; `dropped` plus the rows the chain keeps is `total`; 0 <= dropped <= total |
| Analyze.RunAnalyze | hw1/analyze.py:21-62 | the script loads, prunes and reports; the report is dropped/total times 100 of the counts the loop produced; it fails exactly when no row was loaded and otherwise lies in [0, 100] |
| AnalyzeNyt.AgeGroup | hw1/analyze_nyt.py:30-46 | every age is given one of the plot's group names |
| AnalyzeNyt.AgeGroupCell | hw1/analyze_nyt.py:49 | a NaN age fails every comparison and lands in "65+" |
| AnalyzeNyt.AgeGroupByBounds | hw1/analyze_nyt.py:30-46 | age 0 is "???"; any other age lands in the group whose position in GROUPS is the number of band bounds 18, 25, 35, 45, 55, 65 it has reached |
| AnalyzeNyt.GroupsDistinct | hw1/analyze_nyt.py:22 | the group names are pairwise distinct |
| AnalyzeNyt.AgeGroupMonotone | hw1/analyze_nyt.py:30-46 | among positive ages an older user never lands in an earlier group |
| AnalyzeNyt.AgeGroupBoundaries | hw1/analyze_nyt.py:30-46 | the band edges: 17 is "<18", 18 and 24 are "18-24", 25 is "25-34", 64 is "55-64", 65 and above is "65+", negative ages are "<18" |
| AnalyzeNyt.Ctr | hw1/analyze_nyt.py:50 | CTR is 0 when impressions are 0 and otherwise clicks/impressions; it is NaN exactly when impressions are non-zero and a cell is NaN; non-negative counts give a non-negative CTR |
| AnalyzeNyt.CtrNotBoundedByOne | hw1/analyze_nyt.py:50 | nothing caps CTR at 1: 3 clicks over 2 impressions give 1.5 |
| AnalyzeNyt.RecodeGender | hw1/analyze_nyt.py:137 | only the gender changes, and it becomes -1 exactly on a zero age |
| AnalyzeNyt.CleanNyt | hw1/analyze_nyt.py:130-143 | the chain never adds rows |
| AnalyzeNyt.CleanNytIsRecodedFilter | hw1/analyze_nyt.py:130-143 | the chain is the gender rewrite applied to the rows that pass every test as loaded, and those rows are in input order |
| AnalyzeNyt.CleanNytRows | hw1/analyze_nyt.py:130-143 | every survivor is a valid input row with its gender recoded, and every valid input row survives recoded |
| AnalyzeNyt.CleanNytSurvivors | hw1/analyze_nyt.py:130-143 | survivors have no NaN, non-negative age, impressions and clicks, and a signed-in flag in [0, 1]; gender is -1 exactly when age is 0, otherwise 0 or 1 |
| AnalyzeNyt.CleanNytTwiceIsStrict | hw1/analyze_nyt.py:130-143 | pruning twice equals the strict chain of hw1/analyze.py on the original rows |
| AnalyzeNyt.StrictIsValidTwice | hw1/analyze_nyt.py:133-137 | a row passes the strict tests exactly when it passes the tolerant tests before and after the gender rewrite |
| AnalyzeNyt.CleanNytNotIdempotent | hw1/analyze_nyt.py:133-137 | a zero-age row survives one pass with gender -1 and is dropped by a second |
| AnalyzeNyt.CleanNytDerived | hw1/analyze_nyt.py:49-50 | every pruned row has a defined, non-negative CTR and is in "???" exactly when its age is 0 |
| AnalyzeNyt.Frame.constructor | hw1/analyze_nyt.py:151-152 | a pruned frame starts with the table's columns and rows and no derived columns |
| AnalyzeNyt.Frame.BinByAge | hw1/analyze_nyt.py:24-50 | the frame gains `Age_Group` and `CTR`, holding each row's group and CTR, and its rows are unchanged |
| AnalyzeNyt.CleanNytTable | hw1/analyze_nyt.py:132-146 | pruning one frame keeps its columns and keeps exactly the rows that pass every test, in order, with their gender recoded |
| AnalyzeNyt.PruneNyt | hw1/analyze_nyt.py:126-152 | `new_data` holds each table pruned, in order; `total` is the row count; `dropped` plus the rows in `new_data` is `total`; 0 <= dropped <= total |
| AnalyzeNyt.ToFrames | hw1/analyze_nyt.py:151-152 | one new, distinct frame per pruned table, in order, holding that table |
| AnalyzeNyt.BinAll | hw1/analyze_nyt.py:156-158 | after the binning loop every frame is binned, with its rows unchanged |
| AnalyzeNyt.RunNyt | hw1/analyze_nyt.py:107-158 | the script stops when no file loaded, fails on the report exactly when the loaded tables hold no row, and otherwise bins every pruned frame; the report it prints is dropped/total times 100 of its counts, in [0, 100] |
| AnalyzeShootings.Lookup | hw1/analyze_shootings.py:61 | a dictionary lookup succeeds exactly on a present key, giving its value, and otherwise raises KeyError carrying the key |
| AnalyzeShootings.FillNa | hw1/analyze_shootings.py:62-63 | `fillna` replaces a NaN cell by the fill value and leaves any other cell unchanged |
| AnalyzeShootings.RegionOf | hw1/analyze_shootings.py:23-29 | the region lookup raises KeyError carrying the cell exactly when the state is NaN or not one of the table's codes |
| AnalyzeShootings.WeaponOf | hw1/analyze_shootings.py:32-35 | the weapon bucket is total: NaN, "unarmed" and "undetermined" and nothing else give NONE; a listed description gives the table's bucket and an unlisted one gives OTHER; GUN only for a description that mentions "gun" |
| AnalyzeShootings.GunKeysMentionGun | hw1/analyze_shootings.py:33 | every description the table buckets as GUN contains "gun" |
| AnalyzeShootings.EscapingOf | hw1/analyze_shootings.py:38-41 | NaN and "Not fleeing" give false; "Foot", "Car" and "Other" give true; any other value raises KeyError carrying it |
| AnalyzeShootings.ApplyColumn | hw1/analyze_shootings.py:61-63 | a column apply succeeds exactly when every row does, with one result per row in order; otherwise it raises the error of the first row that fails |
| AnalyzeShootings.BuildDataframe | hw1/analyze_shootings.py:48-63 | the munged table exists exactly when every state and every flight value is listed; it then has one row per raw row, in order, the seven copied columns unchanged and the three buckets of each row; otherwise the error is the first failing region, or, when every region is listed, the first failing flight value |

## Left out

- Reading files: `glob`, `pandas.read_csv` and the CSV format are not modelled. A file is given as either unreadable or a parsed table, in enumeration order.
- Printing and progress bars (`print`, `tqdm`) are not modelled. The list of skipped file indices returned by `PageViews.LoadTables` stands for the failure messages.
- The `astype` casts to int8, int32 and bool are not modelled. Cells are unbounded integers, so wrap-around of an age above 127 is not modelled.
- `AnalyzeNyt.Ctr` and `PageViews.DropPercentage` compute in exact real arithmetic. The source divides in IEEE float64, and its rounding is not modelled.
- Non-integral numeric cells are not modelled. Counts and flags are integers, and a NaN is `None`.
- `collect_metrics`, `visualize_by_age`, the seaborn and matplotlib calls, `code.interact` and the hw2 scripts are out of scope. They are floating-point statistics, plotting, an interactive shell, or regression.
- `AnalyzeNyt.RunNyt`: the empty-load exit calls `sys.exit` without importing `sys`, so it raises `NameError` instead of exiting with status 0. Both stop the script, and only that is modelled.
- Raising `ZeroDivisionError` stops the script. The model returns the error as a value and goes no further.
- `AnalyzeNyt.PruneNyt`: the frame objects are created after the pruning loop, by `AnalyzeNyt.ToFrames`, rather than inside it. The tables they hold are the same.
- `AnalyzeShootings.BuildDataframe`: a `KeyError` from the region column stops the script before any later column is built. The model returns that error and builds no table.
- Pandas `apply` on an empty frame, and assigning its result as a column, is not modelled. The model treats an empty table like any other.
- The bucket labels are enumerations (`Region`, `Weapon`) rather than strings. The tables themselves are keyed by the source's strings.
- `AnalyzeShootings.RegionOf`: it is not proved that the state table has exactly 51 keys. Proving it means comparing the 51 string keys pairwise, which is too costly for the verifier.
