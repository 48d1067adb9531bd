/**
 * The survey loader's decisions: schema validation with an ordered error
 * list, the per-column missing-data report, mean imputation below a
 * threshold, and the out-of-range count for Likert columns.  Reading the CSV
 * file and parsing timestamps are not modelled; the loader starts from a
 * frame.
 */
module DataLoader {
  import opened Wrappers
  import opened Frames
  import opened Registry
  import Stats

  /** The three kinds of schema error, in the order the loader checks them. */
  datatype Category = Required | Likert | Numeric

  datatype SchemaError = SchemaError(category: Category, column: string)

  function ColumnsOf(c: Category): seq<string>
  {
    match c
    case Required => RequiredColumns
    case Likert => LikertColumns
    case Numeric => NumericColumns
  }

  function Rank(c: Category): nat
  {
    match c
    case Required => 0
    case Likert => 1
    case Numeric => 2
  }

  function Prefix(c: Category): string
  {
    match c
    case Required => "Missing required column: "
    case Likert => "Missing Likert column: "
    case Numeric => "Missing numeric column: "
  }

  /** The message recorded for an error: its category's prefix, then the column name. */
  function Message(e: SchemaError): string
  {
    Prefix(e.category) + e.column
  }

  /** Distinct errors have distinct messages, so the message list carries exactly the error list. */
  lemma MessageInjective(e1: SchemaError, e2: SchemaError)
    ensures Message(e1) == Message(e2) <==> e1 == e2
  {
    if Message(e1) == Message(e2) {
      var p1 := Prefix(e1.category);
      var p2 := Prefix(e2.category);
      assert Message(e1)[8] == p1[8] && Message(e2)[8] == p2[8];
      assert e1.category == e2.category;
      assert e1.column == Message(e1)[|p1|..];
      assert e2.column == Message(e2)[|p2|..];
    }
  }

  /** One error of category c per column of `cols` missing from the frame, in list order. */
  function Errors(df: Frame, c: Category, cols: seq<string>): (es: seq<SchemaError>)
    ensures |es| == |Missing(df, cols)|
    ensures forall k :: 0 <= k < |es| ==> es[k] == SchemaError(c, Missing(df, cols)[k])
  {
    var m := Missing(df, cols);
    seq(|m|, k requires 0 <= k < |m| => SchemaError(c, m[k]))
  }

  /** The whole error list: required columns, then Likert columns, then numeric columns. */
  function SchemaErrors(df: Frame): seq<SchemaError>
  {
    Errors(df, Required, RequiredColumns) + Errors(df, Likert, LikertColumns) + Errors(df, Numeric, NumericColumns)
  }

  lemma {:induction false} MissingSnoc(f: Frame, a: seq<string>, x: string)
    ensures Missing(f, a + [x]) == Missing(f, a) + (if x in f.cols then [] else [x])
  {
    if |a| == 0 {
      assert a + [x] == [x];
      assert Missing(f, [x][1..]) == [];
    } else {
      assert (a + [x])[0] == a[0];
      assert (a + [x])[1..] == a[1..] + [x];
      MissingSnoc(f, a[1..], x);
    }
  }

  lemma {:induction false} ErrorsSnoc(df: Frame, c: Category, cols: seq<string>, i: nat)
    requires i < |cols|
    ensures Errors(df, c, cols[..i + 1]) ==
            Errors(df, c, cols[..i]) + (if cols[i] in df.cols then [] else [SchemaError(c, cols[i])])
  {
    assert cols[..i + 1] == cols[..i] + [cols[i]];
    MissingSnoc(df, cols[..i], cols[i]);
  }

  /** Appends one error per column of `cols` that the frame lacks (one loop of `validate_schema`). */
  method AppendMissing(df: Frame, c: Category, cols: seq<string>, errors: seq<SchemaError>) returns (out: seq<SchemaError>)
    ensures out == errors + Errors(df, c, cols)
  {
    out := errors;
    for i := 0 to |cols|
      invariant out == errors + Errors(df, c, cols[..i])
    {
      ErrorsSnoc(df, c, cols, i);
      if cols[i] !in df.cols {
        out := out + [SchemaError(c, cols[i])];
      }
    }
    assert cols[..|cols|] == cols;
  }

  /** `validate_schema`: the ordered error list, and validity exactly when it is empty. */
  method ValidateSchema(df: Frame) returns (valid: bool, errors: seq<SchemaError>)
    ensures errors == SchemaErrors(df)
    ensures valid <==> |errors| == 0
  {
    errors := AppendMissing(df, Required, RequiredColumns, []);
    assert errors == Errors(df, Required, RequiredColumns);
    errors := AppendMissing(df, Likert, LikertColumns, errors);
    errors := AppendMissing(df, Numeric, NumericColumns, errors);
    assert errors == SchemaErrors(df);
    valid := |errors| == 0;
  }

  /** An error of category c is in the list for `cols` exactly when its column is listed and absent. */
  lemma {:induction false} ErrorsMember(df: Frame, c: Category, cols: seq<string>, e: SchemaError)
    ensures e in Errors(df, c, cols) <==> e.category == c && e.column in cols && e.column !in df.cols
  {
    var m := Missing(df, cols);
    var es := Errors(df, c, cols);
    if e.category == c && e.column in cols && e.column !in df.cols {
      var k :| 0 <= k < |m| && m[k] == e.column;
      assert es[k] == e;
    }
  }

  /** An error is reported exactly for each listed column the frame lacks. */
  lemma {:induction false} SchemaErrorsExact(df: Frame, e: SchemaError)
    ensures e in SchemaErrors(df) <==> e.column in ColumnsOf(e.category) && e.column !in df.cols
  {
    var r := Errors(df, Required, RequiredColumns);
    var l := Errors(df, Likert, LikertColumns);
    var n := Errors(df, Numeric, NumericColumns);
    assert e in SchemaErrors(df) <==> e in r || e in l || e in n;
    ErrorsMember(df, Required, RequiredColumns, e);
    ErrorsMember(df, Likert, LikertColumns, e);
    ErrorsMember(df, Numeric, NumericColumns, e);
  }

  /** The schema is valid exactly when every required, Likert and numeric column is present. */
  lemma {:induction false} SchemaValidIff(df: Frame)
    ensures |SchemaErrors(df)| == 0 <==> HasAll(df, RequiredColumns + LikertColumns + NumericColumns)
  {
    if |SchemaErrors(df)| == 0 {
      forall n | n in RequiredColumns + LikertColumns + NumericColumns
        ensures n in df.cols
      {
        if n !in df.cols {
          var c := if n in RequiredColumns then Required else if n in LikertColumns then Likert else Numeric;
          SchemaErrorsExact(df, SchemaError(c, n));
        }
      }
    } else {
      var e := SchemaErrors(df)[0];
      SchemaErrorsExact(df, e);
    }
  }

  lemma {:induction false} BlocksOrdered(a: seq<SchemaError>, b: seq<SchemaError>, d: seq<SchemaError>, j: nat, k: nat)
    requires forall i :: 0 <= i < |a| ==> a[i].category == Required
    requires forall i :: 0 <= i < |b| ==> b[i].category == Likert
    requires forall i :: 0 <= i < |d| ==> d[i].category == Numeric
    requires j < k < |a + b + d|
    ensures Rank((a + b + d)[j].category) <= Rank((a + b + d)[k].category)
  {
    var s := a + b + d;
    assert forall i :: 0 <= i < |a| ==> s[i] == a[i];
    assert forall i :: |a| <= i < |a| + |b| ==> s[i] == b[i - |a|];
    assert forall i :: |a| + |b| <= i < |s| ==> s[i] == d[i - |a| - |b|];
  }

  /** All required-column errors come before all Likert errors, and those before all numeric errors. */
  lemma {:induction false} SchemaErrorsOrdered(df: Frame, j: nat, k: nat)
    requires j < k < |SchemaErrors(df)|
    ensures Rank(SchemaErrors(df)[j].category) <= Rank(SchemaErrors(df)[k].category)
  {
    BlocksOrdered(Errors(df, Required, RequiredColumns), Errors(df, Likert, LikertColumns), Errors(df, Numeric, NumericColumns), j, k);
  }

  /** Whether column n has at least one missing cell in a non-empty frame. */
  predicate HasMissing(df: Frame, n: string)
  {
    df.height > 0 && NullCount(Get(df, n)) > 0
  }

  /**
   * Percentage of missing cells in column n.  An empty frame has no positive
   * percentage (pandas divides 0 by 0 there and compares NaN, which is never
   * positive).
   */
  function MissingPercent(df: Frame, n: string): real
  {
    if df.height == 0 then 0.0 else (NullCount(Get(df, n)) as real) / (df.height as real) * 100.0
  }

  /** The missing-data report over `names`: each column with a positive percentage, in column order. */
  function MissingReport(df: Frame, names: seq<string>): (r: seq<(string, real)>)
    ensures forall e :: e in r <==> e.0 in names && HasMissing(df, e.0) && e.1 == MissingPercent(df, e.0)
  {
    if |names| == 0 then []
    else
      var rest := MissingReport(df, names[1..]);
      assert forall n :: n in names <==> n == names[0] || n in names[1..];
      (if HasMissing(df, names[0]) then [(names[0], MissingPercent(df, names[0]))] else []) + rest
  }

  /** `check_missing_data`: the report over every column of the frame. */
  function CheckMissingData(df: Frame): (r: seq<(string, real)>)
    requires Valid(df)
    ensures forall e :: e in r <==> e.0 in df.cols && HasMissing(df, e.0) && e.1 == MissingPercent(df, e.0)
  {
    MissingReport(df, df.names)
  }

  lemma PercentBounds(q: real, h: real)
    requires 0.0 < q <= h
    ensures 0.0 < q / h * 100.0 <= 100.0
    ensures q / h * 100.0 == 100.0 <==> q == h
  {
    var r := q / h;
    assert r * h == q;
    if r == 1.0 {
      assert q == h;
    }
  }

  /** A reported percentage is positive and at most 100, and it is 100 exactly when the whole column is missing. */
  lemma {:induction false} MissingPercentRange(df: Frame, n: string)
    requires Valid(df) && n in df.cols && HasMissing(df, n)
    ensures 0.0 < MissingPercent(df, n) <= 100.0
    ensures MissingPercent(df, n) == 100.0 <==> forall i :: 0 <= i < df.height ==> df.cols[n][i].None?
  {
    var c := df.cols[n];
    var _ := Present(c);
    NullCountAll(c);
    PercentBounds(NullCount(c) as real, df.height as real);
  }

  /** Fills every missing cell with the mean of the present ones; a column with no present value stays as it is. */
  function FillColumn(c: Column): (d: Column)
    ensures |d| == |c|
  {
    if |Present(c)| == 0 then c
    else
      var m := Stats.Mean(Present(c));
      seq(|c|, i requires 0 <= i < |c| => if c[i].Some? then c[i] else Some(m))
  }

  /** A column with a present value ends with no missing cell; present cells keep their values, missing ones get the mean. */
  lemma {:induction false} FillColumnFills(c: Column)
    requires |Present(c)| > 0
    ensures NullCount(FillColumn(c)) == 0
    ensures forall i :: 0 <= i < |c| && c[i].Some? ==> FillColumn(c)[i] == c[i]
    ensures forall i :: 0 <= i < |c| && c[i].None? ==> FillColumn(c)[i] == Some(Stats.Mean(Present(c)))
  {
    NullCountZero(FillColumn(c));
  }

  /** Filling twice is filling once. */
  lemma {:induction false} FillColumnIdempotent(c: Column)
    ensures FillColumn(FillColumn(c)) == FillColumn(c)
  {
    var d := FillColumn(c);
    if |Present(c)| > 0 {
      FillColumnFills(c);
      NullCountZero(d);
      assert |Present(d)| == |d|;
      FillColumnFills(d);
      assert FillColumn(d) == d;
    }
  }

  /** Whether `impute_missing` fills column n: a reported Likert or numeric column strictly below the threshold. */
  predicate ShouldImpute(df: Frame, n: string, threshold: real)
  {
    && HasMissing(df, n)
    && (n in LikertColumns || n in NumericColumns)
    && MissingPercent(df, n) < threshold * 100.0
  }

  /** The column after imputation. */
  function ImputedColumn(df: Frame, n: string, threshold: real): Column
    requires n in df.cols
  {
    if ShouldImpute(df, n, threshold) then FillColumn(df.cols[n]) else df.cols[n]
  }

  /** The imputed copy: the same names and rows, each column imputed or kept. */
  function Imputed(df: Frame, threshold: real): (g: Frame)
    requires Valid(df)
    ensures g.names == df.names && g.height == df.height && g.cols.Keys == df.cols.Keys
    ensures forall n :: n in df.cols ==> g.cols[n] == ImputedColumn(df, n, threshold)
  {
    Frame(df.names, map n | n in df.cols :: ImputedColumn(df, n, threshold), df.height)
  }

  /** The copy after the columns in `done` have been visited: visited qualifying columns are filled. */
  function PartlyImputed(df: Frame, threshold: real, done: set<string>): (g: Frame)
    requires Valid(df)
  {
    Frame(df.names, map n | n in df.cols :: if n in done then ImputedColumn(df, n, threshold) else df.cols[n], df.height)
  }

  /** The column names of the first j report entries. */
  function VisitedNames(info: seq<(string, real)>, j: nat): set<string>
    requires j <= |info|
  {
    if j == 0 then {} else VisitedNames(info, j - 1) + {info[j - 1].0}
  }

  lemma {:induction false} VisitedNamesContain(info: seq<(string, real)>, j: nat, jj: nat)
    requires jj < j <= |info|
    ensures info[jj].0 in VisitedNames(info, j)
  {
    if jj < j - 1 {
      VisitedNamesContain(info, j - 1, jj);
    }
  }

  /** Visiting one more column imputes that column and changes nothing else. */
  lemma ImputeStep(df: Frame, threshold: real, done: set<string>, col: string)
    requires Valid(df) && col in df.cols
    ensures var g := PartlyImputed(df, threshold, done);
      PartlyImputed(df, threshold, done + {col}) == Frame(g.names, g.cols[col := ImputedColumn(df, col, threshold)], g.height)
  {
    var g := PartlyImputed(df, threshold, done);
    var g2 := PartlyImputed(df, threshold, done + {col});
    assert g2.cols == g.cols[col := ImputedColumn(df, col, threshold)];
  }

  /** Once every qualifying column has been visited, the copy is the imputed frame. */
  lemma ImputeDone(df: Frame, threshold: real, done: set<string>)
    requires Valid(df)
    requires forall n :: n in df.cols && ShouldImpute(df, n, threshold) ==> n in done
    ensures PartlyImputed(df, threshold, done) == Imputed(df, threshold)
  {
    assert PartlyImputed(df, threshold, done).cols == Imputed(df, threshold).cols;
  }

  /** Before any column is visited, the copy is the input frame. */
  lemma ImputeStart(df: Frame, threshold: real)
    requires Valid(df)
    ensures PartlyImputed(df, threshold, {}) == df
  {
    assert PartlyImputed(df, threshold, {}).cols == df.cols;
  }

  /** A report entry names a column of the frame with missing cells, and carries its percentage. */
  lemma ReportEntry(df: Frame, info: seq<(string, real)>, j: nat)
    requires Valid(df) && info == CheckMissingData(df) && j < |info|
    ensures info[j].0 in df.cols && HasMissing(df, info[j].0) && info[j].1 == MissingPercent(df, info[j].0)
  {
    assert info[j] in info;
  }

  /** Imputing a column that is either untouched or already imputed is what the loop body does to it. */
  lemma ColumnStep(df: Frame, threshold: real, g: Frame, col: string, pct: real)
    requires Valid(df) && col in df.cols && col in g.cols && HasMissing(df, col) && pct == MissingPercent(df, col)
    requires g.cols[col] == df.cols[col] || g.cols[col] == ImputedColumn(df, col, threshold)
    ensures g.cols[col := ImputedColumn(df, col, threshold)] ==
      if (col in LikertColumns || col in NumericColumns) && pct < threshold * 100.0
      then g.cols[col := FillColumn(g.cols[col])]
      else g.cols
  {
    FillColumnIdempotent(df.cols[col]);
  }

  /** One iteration over the report: entry j's column is filled exactly when it qualifies. */
  lemma ReportStep(df: Frame, threshold: real, info: seq<(string, real)>, j: nat)
    requires Valid(df) && info == CheckMissingData(df) && j < |info|
    ensures info[j].0 in df.cols
    ensures var g := PartlyImputed(df, threshold, VisitedNames(info, j));
      PartlyImputed(df, threshold, VisitedNames(info, j + 1)) ==
      if (info[j].0 in LikertColumns || info[j].0 in NumericColumns) && info[j].1 < threshold * 100.0
      then Frame(g.names, g.cols[info[j].0 := FillColumn(g.cols[info[j].0])], g.height)
      else g
  {
    var col := info[j].0;
    ReportEntry(df, info, j);
    var g := PartlyImputed(df, threshold, VisitedNames(info, j));
    ImputeStep(df, threshold, VisitedNames(info, j), col);
    ColumnStep(df, threshold, g, col, info[j].1);
  }

  /** After the whole report, every qualifying column has been visited. */
  lemma ReportDone(df: Frame, threshold: real, info: seq<(string, real)>)
    requires Valid(df) && info == CheckMissingData(df)
    ensures PartlyImputed(df, threshold, VisitedNames(info, |info|)) == Imputed(df, threshold)
  {
    forall n | n in df.cols && ShouldImpute(df, n, threshold)
      ensures n in VisitedNames(info, |info|)
    {
      assert (n, MissingPercent(df, n)) in info;
      var jj :| 0 <= jj < |info| && info[jj] == (n, MissingPercent(df, n));
      VisitedNamesContain(info, |info|, jj);
    }
    ImputeDone(df, threshold, VisitedNames(info, |info|));
  }

  /**
   * `impute_missing`: walks the missing-data report of a copy of the frame and
   * fills each qualifying column of the copy.  Frames are values, so the
   * caller's frame cannot change.
   */
  method ImputeMissing(df: Frame, threshold: real) returns (out: Frame)
    requires Valid(df)
    ensures out == Imputed(df, threshold)
  {
    out := df;
    var info := CheckMissingData(out);
    ImputeStart(df, threshold);
    for j := 0 to |info|
      invariant out == PartlyImputed(df, threshold, VisitedNames(info, j))
    {
      ReportStep(df, threshold, info, j);
      var (col, pct) := info[j];
      if (col in LikertColumns || col in NumericColumns) && pct < threshold * 100.0 {
        out := Frame(out.names, out.cols[col := FillColumn(out.cols[col])], out.height);
      }
    }
    ReportDone(df, threshold, info);
  }

  /** The imputed copy is a well-formed frame. */
  lemma ImputedValid(df: Frame, threshold: real)
    requires Valid(df)
    ensures Valid(Imputed(df, threshold))
  {
  }

  /**
   * With a threshold of at most 1 (the loader uses 0.2), a qualifying column
   * ends with no missing cell: its present cells are unchanged and every
   * missing cell holds the mean of the present values.
   */
  lemma ImputedComplete(df: Frame, n: string, threshold: real)
    requires Valid(df) && n in df.cols && threshold <= 1.0 && ShouldImpute(df, n, threshold)
    ensures NullCount(Imputed(df, threshold).cols[n]) == 0
    ensures forall i :: 0 <= i < df.height && df.cols[n][i].Some? ==> Imputed(df, threshold).cols[n][i] == df.cols[n][i]
    ensures forall i :: 0 <= i < df.height && df.cols[n][i].None? ==>
      Imputed(df, threshold).cols[n][i] == Some(Stats.Mean(Present(df.cols[n])))
  {
    var c := df.cols[n];
    assert MissingPercent(df, n) < 100.0;
    PartlyMissingHasPresent(df, n);
    assert Imputed(df, threshold).cols[n] == FillColumn(c);
    FillColumnFills(c);
  }

  /** A column below 100 percent missing still has a present value. */
  lemma PartlyMissingHasPresent(df: Frame, n: string)
    requires Valid(df) && n in df.cols && HasMissing(df, n) && MissingPercent(df, n) < 100.0
    ensures |Present(df.cols[n])| > 0
  {
    var c := df.cols[n];
    MissingPercentRange(df, n);
    assert |c| == df.height;
    assert !(forall i :: 0 <= i < |c| ==> c[i].None?);
    NullCountAll(c);
    assert NullCount(c) != |c|;
  }

  /**
   * A column at or above the threshold, or one that is neither a Likert nor
   * a numeric column (the identifier and the timestamp), is left exactly as
   * it was.
   */
  lemma ImputedKeeps(df: Frame, n: string, threshold: real)
    requires Valid(df) && n in df.cols
    requires (n !in LikertColumns && n !in NumericColumns) || MissingPercent(df, n) >= threshold * 100.0
    ensures Imputed(df, threshold).cols[n] == df.cols[n]
  {
  }

  /** The identifier and timestamp columns are never imputed. */
  lemma ImputedKeepsRequired(df: Frame, threshold: real)
    requires Valid(df) && "respondent_id" in df.cols && "timestamp" in df.cols
    ensures Imputed(df, threshold).cols["respondent_id"] == df.cols["respondent_id"]
    ensures Imputed(df, threshold).cols["timestamp"] == df.cols["timestamp"]
  {
    RequiredColumnsUnmeasured();
    ImputedKeeps(df, "respondent_id", threshold);
    ImputedKeeps(df, "timestamp", threshold);
  }

  /** Number of present cells outside the Likert range 1..5 (missing cells never count). */
  function OutOfRange(c: Column): (k: nat)
    ensures k <= |c|
  {
    if |c| == 0 then 0
    else (if c[0].Some? && (c[0].value < 1.0 || c[0].value > 5.0) then 1 else 0) + OutOfRange(c[1..])
  }

  /** A column on the 1..5 range raises no warning; one outside it does. */
  lemma {:induction false} OutOfRangeZero(c: Column)
    ensures OutOfRange(c) == 0 <==> forall i :: 0 <= i < |c| && c[i].Some? ==> 1.0 <= c[i].value <= 5.0
  {
    if |c| > 0 {
      OutOfRangeZero(c[1..]);
      assert forall i :: 1 <= i < |c| ==> c[i] == c[1..][i - 1];
    }
  }

  /** The out-of-range warnings for the first k columns of `cols`: each present column with a positive count. */
  function RangeWarnings(f: Frame, cols: seq<string>, k: nat): (ws: seq<(string, nat)>)
    requires k <= |cols|
    ensures forall w :: w in ws ==> w.0 in cols[..k] && w.0 in f.cols && w.1 == OutOfRange(f.cols[w.0]) && w.1 > 0
  {
    if k == 0 then []
    else
      var n := cols[k - 1];
      var rest := RangeWarnings(f, cols, k - 1);
      assert forall x :: x in cols[..k - 1] ==> x in cols[..k];
      rest + (if n in f.cols && OutOfRange(f.cols[n]) > 0 then [(n, OutOfRange(f.cols[n]))] else [])
  }

  /** The range check of the loader: counts, per present Likert column, the values outside 1..5. */
  method CheckLikertRanges(frame: Frame) returns (warnings: seq<(string, nat)>)
    ensures warnings == RangeWarnings(frame, LikertColumns, |LikertColumns|)
  {
    warnings := [];
    for k := 0 to |LikertColumns|
      invariant warnings == RangeWarnings(frame, LikertColumns, k)
    {
      var col := LikertColumns[k];
      if col in frame.cols {
        var invalid := OutOfRange(frame.cols[col]);
        if invalid > 0 {
          warnings := warnings + [(col, invalid)];
        }
      }
    }
  }

  /** Why loading failed: the schema errors, all reported before the loader gives up. */
  datatype LoadError = SchemaInvalid(errors: seq<SchemaError>)

  /** A loaded survey: the frame, and the Likert columns that hold values outside 1..5 with their counts. */
  datatype Loaded = Loaded(frame: Frame, rangeWarnings: seq<(string, nat)>)

  /** The threshold `load_survey_data` passes to the imputation (its default). */
  const ImputeThreshold: real := 0.20

  /** The frame the loader returns for a valid schema: imputed when asked and when something is missing. */
  function LoadedFrame(df: Frame, impute: bool): Frame
    requires Valid(df)
  {
    if impute && |CheckMissingData(df)| > 0 then Imputed(df, ImputeThreshold) else df
  }

  /**
   * `load_survey_data` after the file is read: fails with the error list when
   * the schema is invalid, before any imputation; otherwise imputes (when
   * asked and when some column has missing cells) and counts out-of-range
   * Likert values without changing them.
   */
  method LoadSurveyData(df: Frame, impute: bool) returns (r: Result<Loaded, LoadError>)
    requires Valid(df)
    ensures r.Failure? <==> |SchemaErrors(df)| > 0
    ensures r.Failure? ==> r.error.errors == SchemaErrors(df)
    ensures r.Success? ==> r.value.frame == LoadedFrame(df, impute)
    ensures r.Success? ==> r.value.rangeWarnings == RangeWarnings(r.value.frame, LikertColumns, |LikertColumns|)
  {
    var valid, errors := ValidateSchema(df);
    if !valid {
      return Failure(SchemaInvalid(errors));
    }
    var frame := df;
    var missing := CheckMissingData(df);
    if impute && |missing| > 0 {
      frame := ImputeMissing(df, ImputeThreshold);
    }
    var warnings := CheckLikertRanges(frame);
    return Success(Loaded(frame, warnings));
  }
}
