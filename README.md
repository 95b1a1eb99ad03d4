# Survey cleaning pipeline of the loneliness study, in Dafny

The project studies how becoming unemployed affects loneliness. Its data-management
step turns six raw SOEP survey extracts into one analysis table:

- pgen (two extracts, treatment and covariates), ppath, pl, hgen and hbrutto;
- rows of persons aged 22 to 64 in 2013 who worked full time then. A person appears
  once for each agreeing combination of rows in the extracts, so a person's row is
  unique only when every extract has unique ids, which the model does not assume;
- each row holds the treatment flag `went_unemployed`, age, sex, marital status,
  education, loneliness scores for 2013 and 2017, health in 2013, household income
  and household size.

This Dafny project models that step, `src/final_project/data_management/clean_data.py`,
function by function, and proves what each step promises.

The source is pure pandas code: every function copies its table and returns a new one.
The model is therefore functional: datatypes, functions and lemmas.

- `wrappers.dfy` (module `Wrappers`): `Option` and `Result` with the failure-propagating
  `:-` operator. An `Err` stands for the exception pandas would raise.
- `cells.dfy` (module `Cells`): one table cell.
  - A cell is `None` (missing, pandas' NaN) or a text or (real) number value.
  - Also defined: `pd.to_numeric(errors="coerce")`, the `Int64` and `float` casts, and
    the decimal text of an integer.
- `frames.dfy` (module `Frames`): the pandas operations the pipeline uses.
  - A table is a column list plus a sequence of rows; each row maps column names to cells.
  - Operations: column selection (a missing column is a KeyError), boolean row filters,
    column assignment (also one that can raise), renaming, and `merge`.
  - `merge` follows pandas' rules: suffixes on the non-key names both sides share, left
    columns first, rows grouped by left row in left order, unmatched left rows padded in
    a left join, and missing keys matching each other.
- `clean_data.dfy` (module `CleanData`): one section per function of `clean_data.py`,
  namely `filter_by_year`, `replace_invalid_responses`, `pgen_treatment`,
  `ppath_functions`, `pl_subfunction`, `replace_categorical_values` with `mapping1` and
  `mapping2`, `pl_functions`, `pgen_covariates`, `hgen_functions` and `hbrutto_functions`.
- `data_clean.dfy` (module `DataClean`): `data_clean`, the five inner joins. It includes
  the proof that none of them can fail, and the end-to-end lemmas tracing every output
  row back to the raw extracts.

Questionnaire constants are copied byte for byte from the source:

- the seven non-response labels;
- the male label;
- the married label;
- the full-time label, whose `Ã¤` is the UTF-8 form of `ä` misread as Latin-1, kept as
  the program compares it;
- the Likert labels of `mapping1` and `mapping2`.

## Model

All source paths point into `src/final_project/data_management/clean_data.py` unless
they name the test file.

| member | source | states |
|---|---|---|
| Cells.ToNumeric | src/final_project/data_management/clean_data.py:23 | coercion never yields text. Numbers are kept, missing stays missing, and a text cell becomes a number exactly when it parses as one, namely the number it parses to |
| Cells.ParseShowInt | src/final_project/data_management/clean_data.py:23 | the decimal text of every integer parses back to that integer, so a survey year stored as text still compares equal to the year |
| Cells.LabelIsNotNumber | src/final_project/data_management/clean_data.py:61-63 | a bracketed SOEP label such as "[3] Manchmal" never parses as a number, so numeric coercion turns it missing |
| Cells.ToInt64 | src/final_project/data_management/clean_data.py:61 | the `Int64` cast succeeds exactly when the coerced value is missing or integral, and then keeps it |
| Cells.AsFloat | src/final_project/data_management/clean_data.py:172 | the float cast keeps numbers and missing cells. It succeeds on text exactly when the text parses, giving the parsed number |
| Frames.Select | src/final_project/data_management/clean_data.py:119 | `df[cols]` succeeds exactly when all requested columns exist, else it reports one that is absent. The result has exactly those columns, in order, with every row's values copied |
| Frames.Where | src/final_project/data_management/clean_data.py:123-124 | a boolean mask keeps exactly the rows that satisfy it and no others, with the columns unchanged |
| Frames.FilterRowsConcat | src/final_project/data_management/clean_data.py:24 | filtering distributes over concatenation, so kept rows stay in input order |
| Frames.FilterRowsAll | src/final_project/data_management/clean_data.py:24 | a filter that every row passes returns the rows unchanged |
| Frames.Assign | src/final_project/data_management/clean_data.py:121-122 | a column assignment sets that column in every row and leaves every other column of every row as it was |
| Frames.TryAssign | src/final_project/data_management/clean_data.py:122 | an assignment whose per-row computation can raise fails exactly when some row's computation fails; otherwise it behaves as `Assign` |
| Frames.Rename | src/final_project/data_management/clean_data.py:272 | renaming moves the values of the source column to the target name, keeps the column order and leaves other columns alone. Renaming an absent column changes nothing |
| Frames.RenameAllTarget | src/final_project/data_management/clean_data.py:142-149 | a simultaneous rename of distinct pairs puts under each target the values of its source (or of the target itself when the source is absent) |
| Frames.RenameAllOthers | src/final_project/data_management/clean_data.py:142-149 | a simultaneous rename leaves every column outside the pairs untouched |
| Frames.RenameAllColumns | src/final_project/data_management/clean_data.py:142-149 | the renamed column list is the old one with each name mapped through the pairs |
| Frames.Merge | src/final_project/data_management/clean_data.py:91-96 | a merge succeeds exactly when both sides have every key and the suffixed output names are distinct. Its columns follow pandas' suffix layout |
| Frames.JoinRowLeft | src/final_project/data_management/clean_data.py:97 | in a joined row, a left column under its possibly suffixed name holds the left row's value |
| Frames.JoinRowRight | src/final_project/data_management/clean_data.py:97 | in a joined row, a right non-key column under its possibly suffixed name holds the right row's value |
| Frames.JoinRowKey | src/final_project/data_management/clean_data.py:101 | in a joined row, a key column holds the left row's key |
| Frames.MergeRowsSound | src/final_project/data_management/clean_data.py:91-96 | every merged row comes from one left row, joined either with a key-matching right row or, in a left join without a match, with nothing |
| Frames.MergeRowsComplete | src/final_project/data_management/clean_data.py:230-234 | every pair of key-matching rows yields its joined row, in inner and left joins alike |
| Frames.MergeRowsKeepsLeft | src/final_project/data_management/clean_data.py:91-96 | a left join keeps every left row |
| Frames.DistinctWithout | src/final_project/data_management/clean_data.py:328-332 | dropping the key columns from a duplicate-free list leaves it duplicate-free |
| Frames.DisjointShape | src/final_project/data_management/clean_data.py:328-332 | when the sides share only key columns, the output columns are the left ones followed by the right non-key ones, with no suffix and no duplicate |
| Frames.DisjointJoinRow | src/final_project/data_management/clean_data.py:328-332 | such a joined row carries every left column of the left row and every right non-key column of the right row |
| Frames.DisjointMergeSound | src/final_project/data_management/clean_data.py:328-332 | every row of such an inner merge is a key-matching left row and right row put together |
| Frames.DisjointMergeComplete | src/final_project/data_management/clean_data.py:328-332 | every key-matching pair of such an inner merge reaches the output |
| CleanData.FilterByYear | src/final_project/data_management/clean_data.py:11-25 | fails only when `syear` is missing (KeyError). Otherwise the result keeps the columns, adds no rows, and holds exactly the input rows whose coerced `syear` equals the year, with that column stored as a number |
| CleanData.FilterByYearKeeps | src/final_project/data_management/clean_data.py:22-25 | every input row of the year survives the filter |
| CleanData.FilterByYearConcat | src/final_project/data_management/clean_data.py:22-25 | the filter distributes over concatenating the rows, so it keeps the input order |
| CleanData.UnconsiderableCodes | src/final_project/data_management/clean_data.py:44-52 | every one of the seven non-response labels carries a negative code `[-k]` |
| CleanData.PositiveLabelIsAnswer | src/final_project/data_management/clean_data.py:44-52 | a label with a non-negative code is never taken for a non-response |
| CleanData.DropSentinel | src/final_project/data_management/clean_data.py:54 | a non-response label becomes missing, and every other cell is left as it is |
| CleanData.SentinelsAreNotNumbers | src/final_project/data_management/clean_data.py:54-63 | no non-response label could have survived numeric coercion either |
| CleanData.CleanCell | src/final_project/data_management/clean_data.py:54-67 | the cleaned cell is missing for a non-response. Under int or float it is the coerced number or missing. Under category any other cell stays as it is |
| CleanData.ReplaceInvalidResponses | src/final_project/data_management/clean_data.py:28-68 | it fails on a missing column (KeyError) and on an unknown type tag (ValueError); `int` fails exactly when a value is not integral. Otherwise only the target column changes, cell by cell as `CleanCell` says |
| CleanData.Minus | src/final_project/data_management/clean_data.py:97 | the difference is present exactly when both operands are numbers |
| CleanData.Flag | src/final_project/data_management/clean_data.py:97-100 | the flag is 0 or 1, and 1 exactly when both years' values are numbers and the 2017 value exceeds the 2013 value by at least 1 |
| CleanData.TreatmentYear | src/final_project/data_management/clean_data.py:87-89 | cleaning `pgexpue` and filtering one year succeeds exactly when both `pgexpue` and `syear` exist, and keeps the columns |
| CleanData.PgenTreatment | src/final_project/data_management/clean_data.py:71-104 | a missing `pgexpue` or `syear` is the error raised first. The output has exactly the columns pid, went_unemployed, hid |
| CleanData.TreatmentRowsLine | src/final_project/data_management/clean_data.py:97-101 | each output row holds the key of its merged row and the flag of that row's two `pgexpue` values |
| CleanData.TreatmentRowSound | src/final_project/data_management/clean_data.py:91-101 | every output row belongs to a 2013 row. Its flag compares that row with a key-matching 2017 row, or is 0 when there is no 2017 partner |
| CleanData.TreatmentMergedReachesOutput | src/final_project/data_management/clean_data.py:97-101 | every merged row reaches the output with its key |
| CleanData.TreatmentKeepsStarts | src/final_project/data_management/clean_data.py:91-96 | every 2013 row yields at least one output row with its key |
| CleanData.TreatmentPairFlag | src/final_project/data_management/clean_data.py:91-100 | a 2013 row with a 2017 row of the same (pid, hid) yields an output row with its key whose flag is `Flag` of the two rows' `pgexpue` values |
| CleanData.TreatmentFlagIsBinary | src/final_project/data_management/clean_data.py:97-100 | every treatment flag is 0 or 1 |
| CleanData.SexCode | src/final_project/data_management/clean_data.py:121 | sex is coded 1 exactly for the male label and 0 otherwise, a missing value included |
| CleanData.PpathWithAge | src/final_project/data_management/clean_data.py:119-122 | it fails exactly when a column is missing or a birth year is text. Every row's age passes both filters exactly when the birth year is a number giving 22 to 64, and then equals 2013 minus the birth year |
| CleanData.PpathAged | src/final_project/data_management/clean_data.py:123-124 | the two age filters keep exactly the rows of working-age respondents |
| CleanData.PpathFunctions | src/final_project/data_management/clean_data.py:107-126 | the output columns are exactly age, pid, sex |
| CleanData.PpathSucceeds | src/final_project/data_management/clean_data.py:119-122 | ppath_functions fails exactly when pid, sex or gebjahr is missing or some birth year is text |
| CleanData.PpathRowSound | src/final_project/data_management/clean_data.py:119-126 | every output row comes from an input row of working age and carries its pid, its coded sex and 2013 minus its birth year |
| CleanData.PpathKeepsWorkingAge | src/final_project/data_management/clean_data.py:123-125 | every input row of working age reaches the output |
| CleanData.PpathAgeBounds | src/final_project/data_management/clean_data.py:121-124 | every output age is a number from 22 to 64, and every sex code is 0 or 1 |
| CleanData.PlRenamesDistinct | src/final_project/data_management/clean_data.py:142-149 | the four renames have distinct sources and distinct targets |
| CleanData.PlSubfunction | src/final_project/data_management/clean_data.py:129-154 | fails exactly when one of the four items is present under neither its old nor its new name. Otherwise it renames the items in place (column order kept), turns their non-responses missing and leaves the other columns as they were |
| CleanData.CleanCategories | src/final_project/data_management/clean_data.py:150-153 | cleaning a list of category columns fails exactly when one is absent, drops the non-responses in those columns and touches nothing else |
| CleanData.Recode | src/final_project/data_management/clean_data.py:171-172 | `replace(mapping)` then `astype(float)`. Numbers and missing cells are kept; a mapped label becomes the number its mapped text denotes; other text must parse or the cast raises |
| CleanData.RecodeIdempotent | src/final_project/data_management/clean_data.py:171-172 | recoding an already recoded cell changes nothing |
| CleanData.RecodeColumns | src/final_project/data_management/clean_data.py:169-173 | recoding several columns fails exactly when some cell cannot be cast, recodes every cell of those columns and leaves the rest |
| CleanData.ReplaceCategoricalValues | src/final_project/data_management/clean_data.py:157-173 | fails with a KeyError when a column is absent and with a cast error when a cell cannot be cast. Otherwise it recodes exactly the named columns |
| CleanData.Mapping1Keys | src/final_project/data_management/clean_data.py:177-183 | mapping1 maps exactly the five loneliness labels |
| CleanData.Mapping2Keys | src/final_project/data_management/clean_data.py:185-191 | mapping2 maps exactly the five health labels |
| CleanData.LonelinessScore | src/final_project/data_management/clean_data.py:177-183 | loneliness is reverse-scored: the k-th label (0-based) scores 5 - k |
| CleanData.HealthScore | src/final_project/data_management/clean_data.py:185-191 | health is forward-scored: the k-th label (0-based) scores k + 1 |
| CleanData.Present | src/final_project/data_management/clean_data.py:227 | the numbers present among a row's cells are drawn from those cells and include every numeric cell, and there are none exactly when no cell is a number |
| CleanData.RowMean | src/final_project/data_management/clean_data.py:227 | `mean(axis=1)` is missing exactly when no cell is a number, and a number otherwise |
| CleanData.SumBounds | src/final_project/data_management/clean_data.py:227 | a sum of n values between lo and hi lies between n·lo and n·hi |
| CleanData.MeanBounds | src/final_project/data_management/clean_data.py:226-227 | when every present value lies between lo and hi, so does their mean, which skips the missing ones |
| CleanData.RowMeanSkipsMissing | tests/data_management/test_clean_data.py:59-74 | the mean of a missing value, 4 and 5 is 4.5, as the test expects for a respondent with one unanswered item |
| CleanData.PlItems | src/final_project/data_management/clean_data.py:221-223 | selecting the pl columns and cleaning them fails exactly when an input column is missing. Every row keeps its key and year, with its four items' non-responses dropped |
| CleanData.PlRecoded | src/final_project/data_management/clean_data.py:224-227 | the recodes fail exactly when some item cannot be scored. Otherwise every row gets its health score by mapping2 and its loneliness as the mean of the three mapping1 scores |
| CleanData.PlScored | src/final_project/data_management/clean_data.py:221-227 | the scoring succeeds exactly when the inputs are present and every row's items can be scored. Every row then carries the scores of the matching input row |
| CleanData.PlMerged | src/final_project/data_management/clean_data.py:228-234 | the 2013 and 2017 scored rows are inner-joined on (pid, hid) with the year suffixes, giving exactly the fourteen suffixed columns |
| CleanData.PlFunctions | src/final_project/data_management/clean_data.py:198-244 | fails exactly when an input column is missing or an item cannot be scored. The output columns are pid, hid, loneliness 2013, loneliness 2017, health 2013 |
| CleanData.PlRowSound | src/final_project/data_management/clean_data.py:228-243 | every output row pairs a 2013 and a 2017 input row of the same (pid, hid). It carries their key, the mean loneliness of each year and the 2013 health score |
| CleanData.PlRowComplete | src/final_project/data_management/clean_data.py:228-243 | every 2013 row and 2017 row of the same (pid, hid) yield an output row with their scores |
| CleanData.LonelinessItemRange | src/final_project/data_management/clean_data.py:224 | a loneliness answer or non-response can always be scored, and a present score lies between 1 and 5 |
| CleanData.HealthItemRange | src/final_project/data_management/clean_data.py:225 | a health answer or non-response can always be scored, and a present score is one of 1, 2, 3, 4, 5 |
| CleanData.PlScoresInRange | src/final_project/data_management/clean_data.py:224-227 | for rows that only hold the questionnaire's labels or non-responses, scoring cannot fail, mean loneliness lies within 1 to 5 and health is a code from 1 to 5 |
| CleanData.MaritalStatus | src/final_project/data_management/clean_data.py:265-269 | marital status is 1 exactly for the married-and-cohabiting label, else 0 |
| CleanData.CovariatesMarked | src/final_project/data_management/clean_data.py:262-269 | fails exactly when `syear` or `pgfamstd` is missing. Every row comes from a 2013 row and every 2013 row is present, each with its key, employment, schooling and marital status |
| CleanData.PgenCovariates | src/final_project/data_management/clean_data.py:247-274 | fails exactly when one of syear, pgfamstd, pgemplst, pgbilzeit, pid, hid is missing. Every output row comes from a 2013 full-time row, every such row reaches the output, and each row holds that person's marital status and cleaned years of education |
| CleanData.HouseholdItem | src/final_project/data_management/clean_data.py:290-295 | the shared shape of both household functions. It fails exactly when an input column is missing; every output row carries the hid and cleaned value of a 2013 row, and every 2013 row reaches the output |
| CleanData.HgenFunctions | src/final_project/data_management/clean_data.py:277-296 | hgen_functions: (hid, hh_income) of exactly the 2013 household rows, with income cleaned to a float; fails only on a missing column |
| CleanData.HbruttoFunctions | src/final_project/data_management/clean_data.py:299-316 | hbrutto_functions: (hid, hh_members) of exactly the 2013 household rows, with household size cleaned to a float; fails only on a missing column |
| DataClean.MergeLayout | src/final_project/data_management/clean_data.py:328-332 | an inner merge whose sides share only keys, and each have distinct columns, cannot fail, and its columns are the left ones followed by the right non-key ones |
| DataClean.TreatedPathLayout | src/final_project/data_management/clean_data.py:328 | treatment and ppath share only pid, and together give pid, went_unemployed, hid, age, sex |
| DataClean.HouseholdLayout | src/final_project/data_management/clean_data.py:329 | the two household tables share only hid, and together give hid, hh_income, hh_members |
| DataClean.CovariedLayout | src/final_project/data_management/clean_data.py:330 | the covariates share only (pid, hid) with the previous join, and add marital_status and education |
| DataClean.LonelyLayout | src/final_project/data_management/clean_data.py:331 | the loneliness table shares only (pid, hid) with the previous join, and adds its three score columns |
| DataClean.DataLayout | src/final_project/data_management/clean_data.py:332 | the household table shares only hid with the previous join, and adds income and size |
| DataClean.JoinPath | src/final_project/data_management/clean_data.py:328 | the merge on pid succeeds, with the five columns of the layout |
| DataClean.JoinHousehold | src/final_project/data_management/clean_data.py:329 | the merge on hid succeeds, with the three household columns |
| DataClean.JoinCovariates | src/final_project/data_management/clean_data.py:330 | the merge on (pid, hid) succeeds, with seven columns |
| DataClean.JoinLoneliness | src/final_project/data_management/clean_data.py:331 | the merge on (pid, hid) succeeds, with ten columns |
| DataClean.JoinAll | src/final_project/data_management/clean_data.py:332 | the final merge on hid succeeds, with the twelve analysis columns |
| DataClean.Joined | src/final_project/data_management/clean_data.py:328-332 | the five merges of correctly shaped tables never fail and give the twelve analysis columns |
| DataClean.DataClean | src/final_project/data_management/clean_data.py:319-333 | data_clean succeeds exactly when all six cleaning steps do. A failure is that of the first failing step, in the source's order (treatment, pl, covariates, ppath, hgen, hbrutto). The output has the twelve analysis columns |
| DataClean.JoinedSound | src/final_project/data_management/clean_data.py:328-332 | every joined row is made of one row of each cleaned table. All share its pid and hid, and each supplies its own value columns |
| DataClean.JoinedComplete | src/final_project/data_management/clean_data.py:328-332 | every choice of one row per cleaned table whose person and household ids agree yields an output row made of them |
| DataClean.DataCleanRowSound | src/final_project/data_management/clean_data.py:319-333 | every row of data_clean joins one row of each cleaning step's output on the common ids |
| DataClean.DataCleanRowComplete | src/final_project/data_management/clean_data.py:319-333 | every agreeing choice of rows from the six cleaning outputs reaches data_clean's result |
| DataClean.DataCleanTrace | src/final_project/data_management/clean_data.py:319-333 | every output row traces back to the raw extracts: its flag to a 2013 pgen row, age and sex to a working-age ppath row, covariates to a 2013 full-time pgen row, scores to 2013 and 2017 pl rows of the same person, household columns to 2013 hgen and hbrutto rows |
| DataClean.DataCleanBounds | src/final_project/data_management/clean_data.py:319-333 | in the analysis table the treatment flag, sex and marital status are 0 or 1, and age is a number from 22 to 64 |
| DataClean.DataCleanScoreBounds | src/final_project/data_management/clean_data.py:319-333 | when the pl extract holds only questionnaire labels or non-responses, both loneliness scores lie within 1 to 5 and health is a code from 1 to 5 |

## Left out

- Files on disk, Stata and CSV reading, and the pytask wiring that calls `data_clean`
  are outside the cleaning functions and are not part of this model.
- Numbers are exact reals, not IEEE doubles. All the pandas dtypes (`Int64`, `int32`,
  `category`, float) are modelled as one numeric value; rounding is not modelled.
- `pd.to_numeric` and the `astype("float")` casts (lines 63 and 172) share one number
  parser: an optional sign, digits and an optional decimal fraction. Exponents
  ("1e3"), surrounding spaces, "nan", "inf", underscores ("1_000") and other spellings
  Python accepts are treated as non-numbers. On such text the model's float cast
  raises where pandas would give a number or NaN.
- Frames.Merge: the model rejects a merge whenever two output names coincide. pandas
  raises only when the suffixes create a duplicate that one side did not already have;
  for example, keys `k`, left `k, a` and right `k, a, a_x` with suffixes `_x`, `_y`
  give pandas the columns `k, a_x, a_y, a_x`, while the model reports
  `DuplicateColumns`. No merge in `clean_data.py` reaches that case: the two year-on-year
  merges have identical sides, and the five merges of `data_clean` are proved to succeed.
- Merge keys are compared as cells: a text key never matches a numeric key. pandas
  raises a ValueError when it merges integer keys with text keys. The SOEP person and
  household ids are numeric on every side, so the pipeline never meets that case.
- Frames.Rename: renaming onto a name the table already has overwrites that column. In
  pandas the table would then hold two columns of the same name. The renames in
  `hgen_functions`, `hbrutto_functions` and `pl_functions` act on tables whose columns
  were just selected, so their targets are new. `pgen_covariates` renames `pgbilzeit` to
  `education` on the whole pgen extract (line 272), so the model agrees with pandas
  there only when that extract has no `education` column of its own.
- The `ValueError` for a missing column at lines 56-57 is not modelled as its own path.
  Line 54 already reads the column, so a missing column raises a KeyError there first;
  the model reports it as `MissingColumn`.
- `sort_index` at line 103 is the identity here. The merge's fresh index is already in
  row order.
- DataFrame indexes, and the row positions the tests compare after `reset_index` or
  `sort_values`, are not modelled. Row order is modelled as pandas produces it: groups
  by left row, in left order.
- Categorical dtypes coming from `pd.read_stata` are modelled as text labels.
- CleanData.PgenTreatment: the contract names only the two missing-column errors and
  the output columns. It does not characterize every failure, such as a missing pid or
  hid in the merge or the select, or a suffix clash when a column like `pgexpue_2013`
  already exists.
- CleanData.PpathFunctions: its own contract ties success to the staged definition.
  The condition in terms of the input alone is stated by `CleanData.PpathSucceeds`.
