# Survey scoring and analysis pipeline, in Dafny

This project models the core of an evaluation framework for educational
apps. A survey table of 1..5 Likert answers goes through these stages:

- schema validation;
- mean imputation of sparse columns;
- 0..100 factor and dimension scores, plus a weighted overall score;
- Cronbach's alpha per factor, with a quality label;
- correlations, mediation tests and regressions for a fixed set of hypotheses;
- a text report.

A second, web-facing analytics service scores the same survey with its own
policies:

- a missing answer counts as the lowest point;
- an absent Likert column is created and filled with 1;
- an explicit zero-variance guard for alpha;
- no regression below five complete rows;
- top-3 and bottom-3 insight lists.

A small rubric scorer turns five 1..5 ratings into a quality score, a
best/worst insight and a chart payload.

A table is modelled as a `Frame`:

- ordered column names;
- a map from name to column;
- a row count.

A cell is an `Option<real>`, where `None` is pandas' NaN. Everything is
exact `real` arithmetic. The statistical library routines are function
parameters, and the model covers only the logic around them:

- least-squares fits;
- Pearson's r and its p-value;
- the square root.

The loops of the source are methods with loop invariants: the two
`compute_all_scores` loops (`Scoring.AddFactorScores`,
`Scoring.AddDimensionScores`), the two `compute_factor_scores` loops, `validate_schema`, `impute_missing`,
`compute_reliability`, `run_path_analysis`, the two report builders, and
the loops of `run_analytics`. Each is proved equal to a specification
function, and the lemmas state what those functions promise.

Modules:

- `Wrappers`: `Option`, `Result`.
- `Stats`: sums, means, sample variance, extremes and scaling.
- `Frames`: frames and columns, row means, complete-case rows.
- `Registry`: factor and dimension registries, column lists.
- `Scoring`: `src/scoring.py`.
- `ScoreProperties`: score-table properties of `src/scoring.py`, such as
  bounds and uniform answers.
- `WeightSliders`: the weight normalisation in `src/app.py`.
- `DataLoader`: `src/data_loader.py`.
- `Analysis`: `src/analysis.py`.
- `PathModel`: `src/model.py`.
- `Analytics`: `app/services/analytics.py`.
- `Rubric`: the rubric in `app/main.py`.

Behaviour of the source that the model keeps as the code has it:

- In `src/analysis.py` an alpha that is undefined over two or more items
  gets the label "Poor", because every threshold comparison with NaN
  fails (`src/analysis.py:55-64`).
- `impute_missing` returns the copied frame alone (`src/data_loader.py:62-79`).
- Dimension scores are unweighted means of their factors (`src/scoring.py:89-91`).

## Model

| member | source | states |
|---|---|---|
| Registry.FactorItemsAreLikert | src/scoring.py:11-22 | every factor item column is one of the Likert columns |
| Registry.SingleItemFactors | src/scoring.py:18-19 | exactly accessibility and reliability have fewer than two items |
| Registry.FactorNamesDistinct | src/scoring.py:11-22 | the ten factor names are pairwise distinct (a dictionary's keys) |
| Registry.ScoreColumnOrderSpelledOut | src/scoring.py:73-106 | the k-th factor's score column is output column 1+k and the k-th dimension's column is output column 12+k |
| Registry.ScoreColumnNamesDistinct | src/scoring.py:73-106 | the seventeen columns the scorer creates are pairwise distinct, so none overwrites another |
| Registry.RequiredColumnsUnmeasured | src/data_loader.py:11-30 | the identifier and timestamp are neither Likert nor numeric columns |
| Scoring.LikertToScore | src/scoring.py:32-42 | the score is invertible, and it is 0 exactly for the mean 1 |
| Scoring.LikertToScoreAnchors | src/tests/test_scoring.py:44-50 | the means 1, 2, 3, 4 and 5 score 0, 25, 50, 75 and 100 |
| Scoring.LikertToScoreRange | src/scoring.py:42 | means in [1, 5] score in [0, 100], and the score is strictly increasing in both directions |
| Scoring.LookupItems | src/scoring.py:49 | an unregistered name finds the empty item list |
| Scoring.LookupAt | src/scoring.py:49 | with distinct names, a registered factor's name finds its own items |
| Scoring.LookupAll | src/scoring.py:49 | the above for every registered factor at once |
| Scoring.FactorScoreAt | src/scoring.py:53-57 | a row's factor score is undefined exactly when all of its items are missing |
| Scoring.FactorColumn | src/scoring.py:54-59 | one factor score per row of the survey |
| Scoring.ComputeFactorScore | src/scoring.py:44-59 | an empty lookup is the unknown-factor error (both directions); success exactly when every item column exists; otherwise the absent columns are named |
| Scoring.ComputeFactorScoreAt | src/scoring.py:49-57 | for a registered factor: its item column if every item exists, else the absent columns |
| Scoring.ComputeFactorScoreUnknown | src/scoring.py:49-51 | an unregistered factor name is rejected |
| Scoring.FactorScoreUniform | src/scoring.py:54-57 | a row answering v on every item scores the Likert score of v |
| Scoring.FactorScoreBounds | src/scoring.py:42-57 | present answers in [1, 5] give a factor score in [0, 100] |
| Scoring.FactorScoreOneMissing | src/tests/test_scoring.py:106-135 | a two-item factor with one missing answer scores the other answer alone |
| Scoring.DimensionColumn | src/scoring.py:89-91 | a dimension score is the row mean of its factor scores, skipping undefined ones |
| Scoring.DimensionColumnFrame | src/scoring.py:89-91 | a dimension column depends only on the factor columns it averages |
| Scoring.Contribution | src/scoring.py:104-105 | a weighted cell is defined exactly when the cell is present |
| Scoring.WeightedSum | src/scoring.py:103-105 | the weighted sum is defined exactly when every weighted cell is present (NaN propagates) |
| Scoring.WeightedCells | src/scoring.py:104-105 | the cells weighed at a row are the row's cells of exactly the weight map's keys, in order |
| Scoring.WeightedSumAt | src/scoring.py:104-105 | a row's overall score is defined exactly when every weighted column is present there |
| Scoring.Overall | src/scoring.py:103-106 | the overall column holds each row's weighted sum |
| Scoring.OverallFrame | src/scoring.py:103-106 | the overall column depends only on the weighted columns |
| Scoring.WeightedSumUniform | src/scoring.py:104-105 | cells all equal to v sum to v times the total weight (no normalisation) |
| Scoring.WeightedSumBounds | src/scoring.py:104-105 | non-negative weights on cells in [0, hi] sum into [0, hi times the total weight] |
| Scoring.ScaleWeights | src/scoring.py:104-105 | scaling a weight map scales every entry by the same factor |
| Scoring.WeightedSumScale | src/scoring.py:104-105 | scaling the weights by c scales the sum by c, so the sum is plain and unnormalised |
| Scoring.DefaultWeights | src/scoring.py:115-120 | the defaults are the five main score columns, each weighted 1/5, with a total of 1 |
| Scoring.OutputNamesFresh | src/scoring.py:73-106 | for a well-formed registry the created columns are distinct and none is the overall score |
| Scoring.RegistryShortOutputNames | src/scoring.py:73-106 | without an achievement column the created names are still distinct |
| Scoring.RegistryDimensionsRegistered | src/scoring.py:25-30 | every dimension averages registered factors |
| Scoring.RegistryWellFormed | src/scoring.py:11-30 | the survey registry has the shape the scorer relies on |
| Scoring.RegistryOutputNames | src/scoring.py:73-106 | the columns are created in the fixed order, and without achievement that one column is skipped |
| Scoring.IdFrame | src/scoring.py:73-74 | the result starts as the identifier column alone, one row per respondent |
| Scoring.FactorColumns | src/scoring.py:78-79 | each factor whose items exist gets its factor column |
| Scoring.FactorFrameStage | src/scoring.py:76-80 | after the factor loop: the identifier, then every factor score in registry order |
| Scoring.FactorFrameStep | src/scoring.py:78-79 | one step of the factor loop appends the k-th factor's score column |
| Scoring.AddFactorScores | src/scoring.py:76-80 | the loop succeeds exactly when every factor's items exist, with the frame of the factor stage; otherwise it reports absent columns |
| Scoring.DimensionColumns | src/scoring.py:89-91 | each dimension's column is the row mean of its factor columns |
| Scoring.DimensionStep | src/scoring.py:89-91 | a dimension appended earlier never changes a later dimension's inputs |
| Scoring.AddDimensionScores | src/scoring.py:88-92 | the loop appends one column per dimension, in order, after the existing columns |
| Scoring.BaseShape | src/scoring.py:73-85 | before the dimension loop: the identifier, the factor scores and the optional achievement column |
| Scoring.BaseId | src/scoring.py:74 | the identifier column is copied unchanged |
| Scoring.BaseFactors | src/scoring.py:78-79 | each factor score column holds that factor's scores |
| Scoring.BaseAchievement | src/scoring.py:83-84 | a present achievement column is copied unchanged |
| Scoring.BaseHasFactor | src/scoring.py:78-79 | every factor has its score column before the dimension loop |
| Scoring.BaseInputs | src/scoring.py:89-91 | every dimension's factor columns exist when the dimension loop starts |
| Scoring.DimsShape | src/scoring.py:88-92 | after the dimension loop (frame `WithDimensions`) the columns are all the output columns except the overall score |
| Scoring.DimsKeeps | src/scoring.py:88-92 | the dimension loop leaves the earlier columns unchanged |
| Scoring.DimsGet | src/scoring.py:89-91 | each dimension column is the row mean of its factor columns |
| Scoring.DimsWeights | src/scoring.py:96-105 | every weight key is a column after the dimension loop exactly when the weights fit the output |
| Scoring.ScoreFrameShape | src/scoring.py:103-106 | the overall column goes last and leaves every other column unchanged |
| Scoring.FinalKeeps | src/scoring.py:73-106 | the identifier, factor and achievement columns survive into the score table unchanged |
| Scoring.ScoreFrameDimension | src/scoring.py:89-91 | the table's dimension columns are row means of its own factor columns |
| Scoring.ScoreFrameOverall | src/scoring.py:103-106 | the table's overall column is the weighted sum of its own columns |
| Scoring.ScoreFrameId | src/scoring.py:73-74 | the score table carries the survey's identifiers |
| Scoring.ScoreFrameFactor | src/scoring.py:78-79 | factor k's column holds the factor's score on every row |
| Scoring.ScoreFrameAchievement | src/scoring.py:83-84 | achievement passes through unchanged when present |
| Scoring.ScoreWith | src/scoring.py:61-109 | for any well-formed registry: success exactly when every item column and weight key exists, with the score table; otherwise absent columns |
| Scoring.ComputeAllScores | src/scoring.py:61-109 | the same over the survey registry, with the default weights when none are given |
| ScoreProperties.FactorOutputName | src/scoring.py:78-79 | every factor's score column is an output column |
| ScoreProperties.OutputNameKinds | src/scoring.py:73-91 | every output column is the identifier, a factor score, achievement or a dimension score |
| ScoreProperties.UniformFactorScores | src/tests/test_scoring.py:137-201 | a respondent answering v throughout scores the Likert score of v on every factor |
| ScoreProperties.DimensionInputIsFactor | src/scoring.py:25-30 | every column a dimension averages is a factor score column |
| ScoreProperties.DimensionCell | src/scoring.py:89-91 | a dimension cell is the row mean of the row's factor cells |
| ScoreProperties.RowMeanUniform | src/scoring.py:91 | the row mean of cells that all hold s is s |
| ScoreProperties.RowMeanOnScale | src/scoring.py:91 | a row mean of cells in [0, 100] lies in [0, 100] |
| ScoreProperties.UniformDimensionScores | src/tests/test_scoring.py:137-201 | uniform answers v give the Likert score of v on every dimension |
| ScoreProperties.UniformOverall | src/scoring.py:104-105 | weighted columns all equal to s give an overall score of s times the total weight |
| ScoreProperties.FactorScoresOnScale | src/scoring.py:54-57 | answers in [1, 5] give factor scores in [0, 100] |
| ScoreProperties.DimensionScoresOnScale | src/scoring.py:89-91 | answers in [1, 5] give dimension scores in [0, 100] |
| ScoreProperties.ScoreCellOnScale | src/scoring.py:73-91 | every output column but the identifier lies in [0, 100] or is undefined |
| ScoreProperties.OverallAtBounds | src/scoring.py:104-105 | non-negative weights on cells in [0, 100] give an overall score in [0, 100 times the total weight] |
| ScoreProperties.WeightedCellsOnScale | src/scoring.py:104-105 | every cell the overall score weighs lies in [0, 100] |
| ScoreProperties.OverallCell | src/scoring.py:104-106 | the table's overall cell is the row's weighted sum |
| ScoreProperties.OverallOnScale | src/scoring.py:103-106 | the overall score lies in [0, 100 times the total weight] |
| ScoreProperties.DefaultWeightKeys | src/scoring.py:115-120 | the default weights name the four dimensions, then instructor support |
| ScoreProperties.DefaultWeightsFit | src/scoring.py:96-106 | the default weights name output columns, with or without achievement |
| ScoreProperties.DimensionsNonEmpty | src/scoring.py:25-30 | every dimension averages at least one factor |
| ScoreProperties.DefaultWeightedCells | src/scoring.py:98-101 | each default weight reads a dimension or the instructor-support column |
| ScoreProperties.SurveyUniformRow | src/tests/test_scoring.py:137-201 | uniform answers v make every factor, dimension and default overall score the Likert score of v (all 1s give 0, all 5s give 100) |
| ScoreProperties.SurveyRowOnScale | src/scoring.py:61-109 | answers in [1, 5] and achievement in [0, 100] keep every score in [0, 100], the overall too under non-negative weights of total at most 1 |
| WeightSliders.SliderWeights | src/app.py:158-184 | the five sliders are keyed by the five main score columns, in order |
| WeightSliders.Normalize | src/app.py:186-189 | normalising keeps the keys, and a total that is not positive leaves the map unchanged |
| WeightSliders.TotalWeightScale | src/app.py:187-189 | scaling every weight by c scales the total by c |
| WeightSliders.NormalizeSumsToOne | src/app.py:186-189 | a positive total normalises to weights summing to exactly 1 |
| WeightSliders.NormalizeFactor | src/app.py:187-189 | the factor normalising applies is positive |
| WeightSliders.NormalizeScalesUniformly | src/app.py:188-189 | normalising multiplies every weight by that one factor |
| WeightSliders.NormalizeKeepsRatios | src/app.py:159-189 | any two weights keep their ratio (cross products are equal) |
| WeightSliders.NormalizedEntryOnRange | src/app.py:163-189 | each non-negative weight of a positive map normalises onto [0, 1] |
| WeightSliders.NormalizeOnSliderRange | src/app.py:163-189 | non-negative weights normalise onto [0, 1] with a total of at most 1 |
| WeightSliders.DefaultsNormalizeToThemselves | src/app.py:158-189 | the sliders start at 0.2 each, the default weights, and those normalise to themselves |
| WeightSliders.NormalizedSlidersFit | src/app.py:186-196 | the normalised slider map names score columns of the scorer's output |
| WeightSliders.SliderRowOnScale | src/app.py:186-196 | for any slider positions, scoring with the normalised weights keeps every score of an on-scale row in [0, 100] |
| DataLoader.MessageInjective | src/data_loader.py:41-51 | two errors have the same message exactly when they are the same error |
| DataLoader.Errors | src/data_loader.py:38-51 | one error of the category per absent column, in list order |
| DataLoader.AppendMissing | src/data_loader.py:39-51 | one checking loop appends exactly those errors to the list |
| DataLoader.ValidateSchema | src/data_loader.py:32-53 | the method returns the ordered error list, and validity exactly when it is empty |
| DataLoader.ErrorsMember | src/data_loader.py:38-51 | an error is in a block exactly when its column is listed and absent |
| DataLoader.SchemaErrorsExact | src/data_loader.py:38-51 | an error is reported exactly for each listed column the frame lacks |
| DataLoader.SchemaValidIff | src/data_loader.py:53 | valid exactly when every required, Likert and numeric column exists |
| DataLoader.SchemaErrorsOrdered | src/data_loader.py:38-51 | required errors come before Likert errors, and those before numeric errors |
| DataLoader.MissingReport | src/data_loader.py:59-60 | the report holds exactly the columns with a positive missing percentage, each with its percentage |
| DataLoader.CheckMissingData | src/data_loader.py:55-60 | the same over every column of the frame |
| DataLoader.MissingPercentRange | src/data_loader.py:59 | a reported percentage is in (0, 100], and 100 exactly when the whole column is missing |
| DataLoader.FillColumn | src/data_loader.py:73-74 | filling keeps the column length |
| DataLoader.FillColumnFills | src/data_loader.py:73-74 | no missing cell remains; present cells are unchanged; missing ones get the mean of the present values |
| DataLoader.FillColumnIdempotent | src/data_loader.py:73-74 | filling twice is filling once |
| DataLoader.Imputed | src/data_loader.py:62-79 | the copy keeps the names, rows and keys, and each column is imputed or kept |
| DataLoader.ImputeStep | src/data_loader.py:69-75 | visiting a column imputes it and changes nothing else |
| DataLoader.ImputeDone | src/data_loader.py:69-79 | once every qualifying column is visited, the copy is the imputed frame |
| DataLoader.ImputeStart | src/data_loader.py:66 | the copy starts as the input |
| DataLoader.ReportEntry | src/data_loader.py:67-69 | each report entry names a column with missing cells and carries its percentage |
| DataLoader.ColumnStep | src/data_loader.py:70-75 | the loop body fills a column exactly when it is Likert or numeric and strictly below the threshold |
| DataLoader.ReportStep | src/data_loader.py:69-77 | one iteration over the report matches the imputation of that column |
| DataLoader.ReportDone | src/data_loader.py:69-79 | after the whole report, the copy is the imputed frame |
| DataLoader.ImputeMissing | src/data_loader.py:62-79 | the loop over the report returns the imputed copy; the input is a value and cannot change |
| DataLoader.ImputedValid | src/data_loader.py:66-79 | the imputed copy is a well-formed frame |
| DataLoader.ImputedComplete | src/data_loader.py:69-75 | a qualifying column ends with no missing cell, its present cells unchanged and the rest set to the mean |
| DataLoader.ImputedKeeps | src/data_loader.py:70-77 | a column at or above the threshold, or not Likert or numeric, is left exactly as it was |
| DataLoader.ImputedKeepsRequired | src/data_loader.py:70 | the identifier and timestamp are never imputed |
| DataLoader.OutOfRange | src/data_loader.py:119 | the count of present values outside 1..5 is at most the column length |
| DataLoader.OutOfRangeZero | src/data_loader.py:119-121 | no warning exactly when every present value lies in 1..5 |
| DataLoader.RangeWarnings | src/data_loader.py:117-121 | every warning names a present Likert column with a positive count of out-of-range values |
| DataLoader.CheckLikertRanges | src/data_loader.py:115-121 | the range loop yields exactly those warnings and changes no value |
| DataLoader.LoadSurveyData | src/data_loader.py:81-124 | fails exactly when the schema is invalid, with the full error list and before any imputation; otherwise imputes only when asked and something is missing, then counts range violations |
| Analysis.RowSums | src/analysis.py:30 | one row sum per complete row, the sum of the row's items |
| Analysis.ItemVariances | src/analysis.py:29 | one sample variance per item over the complete rows |
| Analysis.CronbachAlpha | src/analysis.py:11-35 | alpha is undefined exactly below two items, below two complete rows, or when the total variance is zero |
| Analysis.AlphaUpperBound | src/analysis.py:29-33 | a defined alpha never exceeds k / (k - 1) |
| Analysis.FormulaBound | src/analysis.py:33 | with non-negative item variances and a positive total, the formula is at most k / (k - 1) |
| Analysis.IdenticalVariances | src/analysis.py:29 | identical items all have the common variance |
| Analysis.IdenticalRowSums | src/analysis.py:30 | k identical items sum to k times the common values |
| Analysis.AlphaOfIdentical | src/analysis.py:33 | item variances summing to k v against a total of k squared v give alpha 1 |
| Analysis.AlphaOfCopies | src/analysis.py:29-33 | k copies of one varying sequence give alpha 1; a constant one gives total variance 0 |
| Analysis.AlphaIdenticalItems | src/analysis.py:22-35 | perfectly agreeing varying items have alpha 1; constant items have an undefined alpha |
| Analysis.AlphaLabel | src/analysis.py:54-64 | the label is one of the five, and an undefined alpha gets "Poor" |
| Analysis.AlphaLabelBands | src/analysis.py:55-64 | each label holds exactly on its own alpha band, at the 0.9, 0.8, 0.7 and 0.6 thresholds |
| Analysis.AlphaLabelMonotone | src/analysis.py:55-64 | a larger alpha never gets a worse label |
| Analysis.Available | src/analysis.py:48 | the available items are exactly the registered items that are columns, in order |
| Analysis.FactorReliability | src/analysis.py:46-79 | a factor's row counts its available items, says "Too few items" exactly below two, and then has no alpha |
| Analysis.ReliabilityUpTo | src/analysis.py:46-82 | one row per factor visited |
| Analysis.Reliability | src/analysis.py:37-82 | one row per registered factor |
| Analysis.ReliabilityUpToRows | src/analysis.py:46-81 | row j is factor j's row |
| Analysis.ReliabilityRows | src/analysis.py:46-82 | rows in registry order; fewer than two items means "Too few items" and no alpha; two or more means the label of alpha |
| Analysis.UndefinedAlphaIsPoor | src/analysis.py:50-64 | an undefined alpha over two or more items is labelled "Poor" |
| Analysis.SingleItemFactorsTooFew | src/analysis.py:73-79 | accessibility and reliability always have too few items and no alpha |
| Analysis.ComputeReliability | src/analysis.py:37-82 | the loop builds exactly the reliability table |
| Analysis.ScoreColumns | src/analysis.py:90 | at most as many names as given, each one of them and ending in "_score" |
| Analysis.ScoreColumnsExact | src/analysis.py:90 | a name is kept exactly when it ends in "_score"; one name alone is kept or dropped by that test |
| Analysis.ScoreColumnsAppend | src/analysis.py:90 | filtering distributes over concatenation, so the kept names stay in their original order |
| Analysis.ScoreColumnsDistinct | src/analysis.py:90 | distinct column names give distinct score columns |
| Analysis.CorrelationMatrix | src/analysis.py:84-96 | the matrix is square over the score columns |
| Analysis.CorrelationMatrixSymmetric | src/analysis.py:93 | a symmetric coefficient gives a symmetric matrix |
| Analysis.DescribeColumn | src/analysis.py:107-117 | count of present values; mean, min and max exactly when there is one; SD and interval exactly when there are two; min <= mean <= max, both extremes present values |
| Analysis.DescriptiveStats | src/analysis.py:98-120 | fails exactly when there is no score column; otherwise one row per score column, in order, each that column's description |
| Analysis.ComputeDescriptiveStats | src/analysis.py:98-120 | the loop over the score columns yields exactly the descriptive table |
| Analysis.TestCorrelationSignificance | src/analysis.py:122-143 | the test uses exactly the rows where both columns are present; it fails exactly below two such rows; otherwise n is their count and it is significant exactly when p < 0.05 |
| Analysis.PresentPairs | src/analysis.py:191-192 | only pairs whose two columns exist are kept |
| Analysis.PresentPairsExact | src/analysis.py:191-192 | a pair is reported exactly when both of its columns exist |
| Analysis.PresentPairsAll | src/analysis.py:191-195 | with every column present, all five pairs are reported in order |
| Analysis.ReliabilityLine | src/analysis.py:163-167 | a defined alpha is printed with its label and item count, otherwise only the label |
| Analysis.ReliabilityLines | src/analysis.py:162-167 | one line per reliability row |
| Analysis.ReplaceChar | src/analysis.py:175 | replacing one character by another keeps the length and changes exactly the positions holding it |
| Analysis.TitleCaseFromAt | src/analysis.py:175 | a title-cased letter is lowered after a letter and raised otherwise; other characters are kept |
| Analysis.DescriptiveLabelShape | src/analysis.py:175 | a printed column name has no underscore, and a letter is upper-case exactly when it starts a word |
| Analysis.DescriptiveLineOf | src/analysis.py:174-176 | a column's line carries its printed name, mean, SD and both interval bounds, the bounds exactly when the column has an interval |
| Analysis.DescriptiveLines | src/analysis.py:174-176 | one line per descriptive row |
| Analysis.DescriptiveSectionLines | src/analysis.py:173-176 | the loop yields exactly the descriptive lines |
| Analysis.ReliabilitySectionLines | src/analysis.py:162-167 | the loop yields exactly the reliability lines |
| Analysis.PairLinesUpTo | src/analysis.py:191-195 | one line per pair whose columns both exist, reporting that pair's test, marked exactly when p < 0.05 |
| Analysis.PairLinesFail | src/analysis.py:191-193 | the pair lines fail exactly when some present pair has fewer than two joint rows, which Pearson's test rejects, with the first such pair's error |
| Analysis.PairLinesFailureKept | src/analysis.py:191-193 | once a test has raised, later pairs do not change the outcome |
| Analysis.KeyPairSectionLines | src/analysis.py:191-195 | the loop over the key pairs yields exactly the pair lines, stopping at the first test that raises |
| Analysis.GenerateAnalysisReport | src/analysis.py:145-202 | the section-by-section builder yields exactly the report, or the error of the first step that raises |
| Analysis.HasIntervalIff | src/analysis.py:110-117 | the table has interval columns exactly when some score column has two present values |
| Analysis.ReportFailures | src/analysis.py:107-193 | the report fails exactly when there is no score column, no score column with two values, or a present key pair with fewer than two joint rows, with the first of these as the error |
| Analysis.ReportAssembled | src/analysis.py:149-202 | a built report is header, reliability lines, descriptive lines, pair lines, footer |
| Analysis.ReportContents | src/analysis.py:149-202 | a built report states the sample size and has one line per factor, per score column and per present key pair between the fixed lines |
| Analysis.ReportReliabilityLines | src/analysis.py:162-167 | line 8 + k is factor k's reliability line |
| Analysis.ReportDescriptiveLines | src/analysis.py:173-176 | the line of score column j carries that column's printed name, mean, SD and interval |
| Analysis.ReportPairLines | src/analysis.py:191-195 | the line of present key pair j reports that pair's test, labelled, marked exactly when p < 0.05 |
| PathModel.RegressionRowsExact | src/model.py:24 | the fit uses exactly the rows with no missing outcome or predictor |
| PathModel.RegressionDesign | src/model.py:24-30 | the outcome and every predictor are taken over the same complete rows, with an intercept exactly when no predictor is a nonzero constant there |
| PathModel.WithConstant | src/model.py:30 | the intercept column is added exactly when no predictor is a nonzero constant |
| PathModel.RunSimpleRegression | src/model.py:12-44 | the result carries the fit's statistics, and coefficients and p-values keyed "const" when an intercept is fitted, then by predictor |
| PathModel.RegressionConstant | src/model.py:30-42 | a "const" entry is present exactly when no predictor is a nonzero constant over the complete rows |
| PathModel.ClassifyExact | src/model.py:90-96 | full, partial and none each hold exactly under their condition, so exactly one applies |
| PathModel.NoTotalEffectNoMediation | src/model.py:95-96 | a non-significant total effect never gives mediation |
| PathModel.MediationDesignsOf | src/model.py:57-85 | the three designs are Y on X, M on X, and Y on X and M, each with an intercept unless one of its predictors is a nonzero constant |
| PathModel.MediationSameRows | src/model.py:57-85 | all three fits use the same rows where X, M and Y are all present |
| PathModel.TestMediation | src/model.py:46-111 | the effects and p-values come from the right fits, at the right column whether or not an intercept was added, indirect = a b, and the verdict follows the classification |
| PathModel.HypothesisResult | src/model.py:127-182 | H1 runs a mediation; every other hypothesis runs a regression |
| PathModel.RecordEntries | src/model.py:129-181 | recording a hypothesis adds its entry exactly when all its columns exist, and changes nothing else |
| PathModel.PathResultsGated | src/model.py:129-181 | a hypothesis is in the results exactly when all its columns exist, with its own test's result |
| PathModel.RunHypothesis | src/model.py:129-181 | one step runs the hypothesis and records it exactly when all its columns exist |
| PathModel.RunPathAnalysis | src/model.py:113-187 | the method builds exactly that results map |
| PathModel.SectionLines | src/model.py:198-229 | a section opens with its heading and has no other heading |
| PathModel.GenerateModelReport | src/model.py:189-232 | the section-by-section builder yields exactly the report |
| PathModel.PresentReported | src/model.py:199-229 | the reported hypotheses are exactly those of H1, H2, H3a and H3b that are in the results |
| PathModel.ModelReportSections | src/model.py:199-229 | the report has a section exactly for each of H1, H2, H3a and H3b present, in that order |
| PathModel.MultipleRegressionNotReported | src/model.py:189-232 | the multiple regression never gets a section |
| PathModel.PathResultsWellTyped | src/model.py:125-187 | the results always hold a mediation for H1 and regressions elsewhere, as the report expects |
| Analytics.NormalizedCell | app/services/analytics.py:93-94 | a missing answer scores 0; a present one is the Likert score of its value; 1..5 maps onto 0..100 |
| Analytics.NormalizeLikert | app/services/analytics.py:93-94 | the normalised column has no missing cell, and each cell is the normalised answer |
| Analytics.NormalizedRow | app/services/analytics.py:103 | one normalised value per item column of the row |
| Analytics.MeanOfScores | app/services/analytics.py:103 | scoring then averaging equals averaging then scoring |
| Analytics.NormalizedRowPresent | app/services/analytics.py:103 | a fully answered row normalises to the scores of its values |
| Analytics.ServiceFactorColumn | app/services/analytics.py:103 | a factor score is defined on every row |
| Analytics.ServiceAgreesWhenAnswered | app/services/analytics.py:93-103 | on a fully answered row the service's factor score equals the research scorer's |
| Analytics.ServiceScoreBounds | app/services/analytics.py:93-103 | answers in 1..5, or missing, give a factor score in [0, 100] |
| Analytics.ServiceScoreUnanswered | app/services/analytics.py:93-94 | a row with no answer scores 0 |
| Analytics.FactorScoresUpTo | app/services/analytics.py:99-103 | the factor loop keeps one row per respondent |
| Analytics.FactorScoresShape | app/services/analytics.py:98-103 | the factor frame is well formed and holds only factor score columns |
| Analytics.FactorScoresGet | app/services/analytics.py:99-103 | a factor has a column exactly when one of its items exists, and it averages the present items |
| Analytics.DimensionScoresUpTo | app/services/analytics.py:104-107 | the dimension loop keeps one row per respondent |
| Analytics.DimensionScoresShape | app/services/analytics.py:104-107 | the dimension loop keeps the factor columns and adds only dimension columns |
| Analytics.DimensionScoresGet | app/services/analytics.py:104-107 | a dimension has a column exactly when one of its factors has one, and it is the row mean of those |
| Analytics.DimensionInputs | app/services/analytics.py:105 | each dimension reads its factors' score columns |
| Analytics.FactorScoreNames | app/services/analytics.py:103 | the factor score columns, in registry order |
| Analytics.DimensionScoreNames | app/services/analytics.py:107 | the dimension score columns, in registry order |
| Analytics.ServiceNamesDistinct | app/services/analytics.py:34-52 | the factor and dimension score columns are all distinct |
| Analytics.DimensionInputsAreFactorScores | app/services/analytics.py:47-52 | every dimension reads factor score columns only |
| Analytics.DimensionScoresStep | app/services/analytics.py:104-107 | a later dimension sees the same inputs on the growing frame as on the factor frame |
| Analytics.ServiceFactorListed | app/services/analytics.py:99-103 | the same for the service's score frame: a factor column exactly when an item exists |
| Analytics.ServiceDimensionListed | app/services/analytics.py:104-107 | a dimension column exactly when one of its factor columns exists, as their row mean |
| Analytics.ServiceScoresShape | app/services/analytics.py:97-117 | one row per respondent, and only factor and dimension score columns |
| Analytics.FallbacksNeverFire | app/services/analytics.py:108-116 | whenever a fallback's condition would allow it to assign, the main loop has already written that column |
| Analytics.FactorFrameComplete | app/services/analytics.py:99-103 | with every Likert column present, every factor has a column |
| Analytics.ServiceScoresComplete | app/services/analytics.py:97-117 | with every Likert column present, every factor and dimension has a column |
| Analytics.FactorLoop | app/services/analytics.py:98-103 | the loop builds exactly the factor frame |
| Analytics.DimensionLoop | app/services/analytics.py:104-107 | the loop builds exactly the dimension frame |
| Analytics.ComputeFactorScores | app/services/analytics.py:97-117 | the function yields exactly the service's score frame |
| Analytics.MetricsOf | app/services/analytics.py:136-146 | min and max are attained and bound every value; min <= mean <= max; std >= 0; ci_low <= mean <= ci_high; a single value has std 0 and a degenerate interval |
| Analytics.Describe | app/services/analytics.py:133-147 | exactly the columns with a present value get metrics |
| Analytics.DescribeMetrics | app/services/analytics.py:133-147 | the loop over the columns builds exactly those metrics |
| Analytics.CorrelationRow | app/services/analytics.py:155-156 | each row has an entry for every column |
| Analytics.ServiceCorrelations | app/services/analytics.py:150-157 | empty exactly for an empty frame; otherwise one entry per pair of columns |
| Analytics.ServiceCorrelationsSymmetric | app/services/analytics.py:153-156 | a symmetric coefficient gives a symmetric matrix |
| Analytics.RegressionRowsUpTo | app/services/analytics.py:161 | the kept rows are exactly the complete ones, increasing |
| Analytics.DesignRow | app/services/analytics.py:164 | a design row holds the row's feature values in feature order |
| Analytics.DesignRows | app/services/analytics.py:164 | one design row per kept row |
| Analytics.TargetValues | app/services/analytics.py:165 | the target values at the kept rows |
| Analytics.SquaredResiduals | app/services/analytics.py:169 | the residual sum of squares is non-negative |
| Analytics.RSquared | app/services/analytics.py:169-171 | R squared is at most 1, and 0 when the target does not vary |
| Analytics.NoResidual | app/services/analytics.py:169 | exact predictions leave no residual |
| Analytics.PerfectFitScoresOne | app/services/analytics.py:169-171 | a perfect fit of a varying target has R squared 1 |
| Analytics.ConstantTargetScoresZero | app/services/analytics.py:171 | a constant target has R squared 0 whatever the predictions |
| Analytics.Zip | app/services/analytics.py:174 | pairs names and values up to the shorter of the two |
| Analytics.RegressionSummaryOf | app/services/analytics.py:160-176 | nothing exactly when there are fewer than five complete rows; otherwise R squared, intercept and coefficients keyed by feature |
| Analytics.ColumnMean | app/services/analytics.py:182 | a column mean is undefined exactly when every cell is missing |
| Analytics.MeanEntries | app/services/analytics.py:182 | one mean per column, in column order |
| Analytics.PrecedesOrder | app/services/analytics.py:182 | the descending order of means is a total preorder |
| Analytics.Insert | app/services/analytics.py:182 | insertion adds one entry and keeps the others (a multiset) |
| Analytics.InsertRanked | app/services/analytics.py:182 | insertion keeps the list ranked |
| Analytics.Rank | app/services/analytics.py:182 | the ranking is a permutation of the means, in descending order |
| Analytics.RankMembers | app/services/analytics.py:182 | an entry is ranked exactly when it is a mean of the frame |
| Analytics.GenerateInsights | app/services/analytics.py:179-194 | an empty table gives two empty lists; otherwise both lists come from one descending ranking of the means: the strengths are its first three entries and the improvements its last three (all of them when there are fewer), each list in descending order |
| Analytics.InsightsExtremes | app/services/analytics.py:182-184 | strengths and improvements are means of the frame; no mean left out ranks above a strength or below an improvement |
| Analytics.StrengthsExtreme | app/services/analytics.py:183 | the strengths half of that |
| Analytics.ImprovementsExtreme | app/services/analytics.py:184 | the improvements half of that |
| Analytics.LikertColumnsDistinct | app/services/analytics.py:11-30 | the eighteen Likert columns are pairwise distinct |
| Analytics.MissingDistinct | app/services/analytics.py:199 | the absent column list has no duplicates |
| Analytics.LowestColumns | app/services/analytics.py:201-202 | each created column holds 1 in every row |
| Analytics.FilledWith | app/services/analytics.py:199-202 | the fill keeps the row count |
| Analytics.Filled | app/services/analytics.py:199-202 | the filled survey keeps the row count |
| Analytics.FilledWithKeys | app/services/analytics.py:199-202 | the fill adds exactly the absent names and keeps the frame well formed |
| Analytics.FilledWithColumns | app/services/analytics.py:201-202 | a created column holds 1 in every row; an existing column keeps its cells |
| Analytics.FilledShape | app/services/analytics.py:199-202 | after the fill every Likert column exists; created ones hold 1; the others are unchanged |
| Analytics.ServiceReliabilityUpTo | app/services/analytics.py:206-212 | a factor with fewer than two present items is skipped, so there are at most as many rows as factors |
| Analytics.ReliabilityOfComplete | app/services/analytics.py:207-212 | with every item present, the list holds exactly the factors with two or more items |
| Analytics.RegistryMultiItemNames | app/services/analytics.py:34-45 | the registry's multi-item factors are all except accessibility and reliability, in order |
| Analytics.FilledHasItems | app/services/analytics.py:199-208 | after the fill every factor's items exist |
| Analytics.ServiceReliabilityOfFilled | app/services/analytics.py:199-212 | after the fill the list names the eight two-item factors in order, each with alpha over all its items |
| Analytics.SatisfactionModel | app/services/analytics.py:217-223 | there is no satisfaction model unless all four of its columns exist |
| Analytics.AchievementModel | app/services/analytics.py:224-230 | there is no achievement model unless the survey has an achievement column |
| Analytics.PathModels | app/services/analytics.py:216-230 | a model appears exactly when it was fitted, and nothing else appears |
| Analytics.OverallSeries | app/services/analytics.py:233 | empty for an empty frame; otherwise the row mean across all score columns |
| Analytics.OverallSpread | app/services/analytics.py:238-239 | an empty series has mean 0; at most one row has std 0; std >= 0; the mean is defined exactly when some value is present |
| Analytics.Summary | app/services/analytics.py:234-240 | the respondent count, the Likert columns filled, and the numeric columns still absent |
| Analytics.PreviewRow | app/services/analytics.py:243 | every score column, with a missing value shown as 0 |
| Analytics.Preview | app/services/analytics.py:241-243 | one preview row per row shown |
| Analytics.FillMissing | app/services/analytics.py:199-202 | the fill loop returns the filled survey and the absent Likert columns in list order |
| Analytics.ReliabilityLoop | app/services/analytics.py:206-212 | the reliability loop yields exactly the reliability list |
| Analytics.PreviewLoop | app/services/analytics.py:241-243 | the preview loop yields the first min(5, n) rows |
| Analytics.RunAnalytics | app/services/analytics.py:197-253 | the method yields exactly the analytics result of the survey |
| Analytics.AnalyticsSummaryFacts | app/services/analytics.py:234-237 | every respondent is counted; exactly the absent Likert columns are "imputed"; exactly the absent numeric columns are "missing" |
| Analytics.AnalyticsSingleRespondent | app/services/analytics.py:239 | with at most one respondent the overall std is 0 |
| Analytics.AnalyticsEmptySurvey | app/services/analytics.py:197-253 | an empty survey yields mean 0 and empty correlations, models, insights and preview, not an error |
| Analytics.AnalyticsFewRespondents | app/services/analytics.py:216-230 | fewer than five respondents give no path model |
| Analytics.AnalyticsCoverage | app/services/analytics.py:199-212 | after the fill every factor and dimension column exists, and reliability covers exactly the eight multi-item factors |
| Analytics.AnalyticsPreviewShape | app/services/analytics.py:241-243 | the preview has min(5, n) rows, each with every score column |
| Rubric.Values | app/main.py:55-61 | the five ratings in form order |
| Rubric.QualityScore | app/main.py:62 | the percentage of the best total is four times the rating sum, so rounding to two places changes nothing |
| Rubric.QualityScoreBounds | app/main.py:55-62 | ratings in 1..5 give a score in [20, 100] |
| Rubric.Strip | app/main.py:64-67 | the stripped text has no surrounding whitespace, is empty exactly for all-whitespace input, and is the input less its leading and trailing whitespace |
| Rubric.StripTrimmed | app/main.py:65 | text without surrounding whitespace is unchanged |
| Rubric.StripIdempotent | app/main.py:65 | stripping twice is stripping once |
| Rubric.OptionalText | app/main.py:66-67 | blank text is stored as None; anything else as its non-empty stripped text |
| Rubric.NewEvaluation | app/main.py:64-75 | the record stores the stripped name, optional audience and summary, the ratings, four times the rating sum, and the time |
| Rubric.FirstMax | app/main.py:157 | the first index holding the maximum rating |
| Rubric.FirstMin | app/main.py:158 | the first index holding the minimum rating |
| Rubric.FirstMaxUnique | app/main.py:157 | there is only one such first maximum |
| Rubric.FirstMinUnique | app/main.py:158 | there is only one such first minimum |
| Rubric.NatToString | app/main.py:160-161 | the digits of a number, with no leading zero |
| Rubric.NatToStringRoundTrip | app/main.py:160-161 | reading the digits back gives the number |
| Rubric.IntToString | app/main.py:160-161 | a minus sign exactly for a negative number |
| Rubric.TierOf | app/main.py:163-168 | excellent exactly from 80, solid exactly on [60, 80), foundational exactly below 60 |
| Rubric.InsightPlan | app/main.py:149-169 | three lines: praise for the first best dimension, concern for the first worst, closing by tier |
| Rubric.EvaluationPlan | app/main.py:149-169 | the same for the five named dimensions of a record |
| Rubric.InsightsAllEqual | app/main.py:157-158 | with all ratings equal, best and worst are both Pedagogical Design |
| Rubric.TierByTotal | app/main.py:62-168 | the tier is excellent exactly for a rating sum of at least 20, solid for 15..19, foundational below 15 |
| Rubric.BuildChartPayload | app/main.py:172-187 | five labels and five values in the same fixed order, value i being label i's rating |
| Rubric.ChartMatchesQuality | app/main.py:172-187 | the chart values sum to a quarter of the stored quality score |

## Left out

- File and network I/O (`pd.read_csv`, the upload bytes) and every `print` / Streamlit call: the model starts from a parsed `Frame`.
- Timestamp parsing in `load_survey_data`: the column is only carried through.
- Floating point: all arithmetic is exact `real`. NaN is `None`, and infinities are not modelled.
- Statsmodels OLS, scikit-learn `LinearRegression`, scipy's Pearson test, pandas correlation and `np.sqrt` are function parameters. Their numerical results are not modelled, only their use.
- The Student-t interval and the square root of `compute_descriptive_stats` are parameters. The quartiles of `describe()` are not modelled, since the report never prints them. Report lines carry the values they print; number formatting, rounding and the column padding are left out.
- Analysis.DescriptiveLabel: `str.title` and `str.replace` are modelled on ASCII letters. Python's Unicode case rules for other letters are not modelled.
- Analysis.AnalysisReport: an exception ends the report with the error of the step that raised. The traceback text is not modelled. A NaN p-value (for a constant column) is not modelled, because the p-value is a `real`; in the source such a pair prints without the significance marker.
- PathModel.RunSimpleRegression: the `summary` text entry of the result is not modelled; the model report never reads it. The library's failure on a design with no rows is not modelled either. The fit is a total parameter. The same holds for TestMediation.
- Analysis.CronbachAlpha: `src/analysis.py` has no zero-variance guard, so numpy's result there is `-inf` or `NaN`. Both readings are modelled as an undefined alpha, matching the service's explicit guard. Both are labelled "Poor". For `-inf`, which `pd.isna` does not catch, the source prints the value line "α = -inf (Poor, n=k items)"; `Analysis.ReliabilityLine` prints the label-only line instead.
- Analytics.Rank: the order among equal means is not stated, because pandas' `sort_values` is not stable. The contract states sortedness plus permutation only.
- Analytics.AchievementModel: the achievement column goes through the Likert normalisation, as the code does, even though it is already on a 0..100 scale.
- DataLoader.ImputeMissing: the pandas chained `fillna(inplace=True)` is modelled as its evident intent, filling that column of the copy.
- Rubric.Render and Rubric.BuildInsights: they carry no contract of their own. The messages are fixed texts around the planned lines, so the properties are stated on `InsightPlan` and `EvaluationPlan`.
- Rubric.Strip: whitespace is a fixed set of Unicode space characters. Python's `str.isspace` is taken as that set.
- Persistence, ids, HTTP routes and templates of the rubric app (`app/database.py`, the FastAPI handlers).
- Plotting (`src/visualize.py`), synthetic data (`src/data_generator.py`) and the React client.
