/**
 * The cleaning steps of clean_data.py: each takes a survey extract (a frame)
 * and returns a new frame, or the exception pandas would raise.
 */
module CleanData {
  import opened Wrappers
  import opened Cells
  import opened Frames

  // ---------------------------------------------------------------------------
  // filter_by_year
  // ---------------------------------------------------------------------------

  /** The survey year of a row as `to_numeric(..., errors="coerce")` reads it is `year`. */
  predicate HasYear(r: Row, year: int) {
    ToNumeric(At(r, "syear")) == Some(Num(year as real))
  }

  /**
   * filter_by_year: coerce `syear` to a number (text that is not a number
   * becomes missing), then keep the rows whose year equals `year`.
   * A kept row is its input row with `syear` now numeric; nothing else changes.
   */
  /** `pd.to_numeric(df["syear"], errors="coerce")` on one row. */
  function YearCoerced(row: Row): Cell {
    ToNumeric(At(row, "syear"))
  }

  /** The mask `df["syear"] == year` of a coerced row. */
  function InYear(year: int): Row -> bool {
    row => At(row, "syear") == Some(Num(year as real))
  }

  function FilterByYear(f: Frame, year: int): (r: Result<Frame, Error>)
    ensures r.Ok? <==> "syear" in f.columns
    ensures r.Err? ==> r.error == MissingColumn("syear")
    ensures r.Ok? ==> r.value.columns == f.columns && |r.value.rows| <= |f.rows|
    ensures r.Ok? ==> forall x :: x in r.value.rows ==> At(x, "syear") == Some(Num(year as real))
    ensures r.Ok? ==> forall x :: x in r.value.rows <==>
      exists i :: 0 <= i < |f.rows| && HasYear(f.rows[i], year) && x == f.rows[i]["syear" := Some(Num(year as real))]
  {
    if "syear" !in f.columns then Err(MissingColumn("syear"))
    else
      var coerced := Assign(f, "syear", YearCoerced);
      assert forall i :: 0 <= i < |f.rows| ==> coerced.rows[i] == f.rows[i]["syear" := ToNumeric(At(f.rows[i], "syear"))];
      Ok(Where(coerced, InYear(year)))
  }

  /** Every row of the year is kept, with its year now numeric. */
  lemma FilterByYearKeeps(f: Frame, year: int, i: int)
    requires "syear" in f.columns && 0 <= i < |f.rows| && HasYear(f.rows[i], year)
    ensures f.rows[i]["syear" := Some(Num(year as real))] in FilterByYear(f, year).value.rows
  {
  }

  /** Filtering by year keeps the relative order of the rows: it distributes over concatenation. */
  lemma FilterByYearConcat(cols: seq<string>, a: seq<Row>, b: seq<Row>, year: int)
    requires "syear" in cols
    ensures FilterByYear(Frame(cols, a + b), year).value.rows
         == FilterByYear(Frame(cols, a), year).value.rows + FilterByYear(Frame(cols, b), year).value.rows
  {
    var ca := Assign(Frame(cols, a), "syear", YearCoerced).rows;
    var cb := Assign(Frame(cols, b), "syear", YearCoerced).rows;
    AssignConcat(cols, a, b, "syear", YearCoerced);
    FilterRowsConcat(ca, cb, InYear(year));
  }

  // ---------------------------------------------------------------------------
  // replace_invalid_responses
  // ---------------------------------------------------------------------------

  /**
   * The seven non-response labels of the survey, which all stand for a missing
   * answer. Each label is written as its bracketed code followed by its text.
   */
  const Unconsiderable: seq<string> := [
    "[-1] " + "keine Angabe",
    "[-2] " + "trifft nicht zu",
    "[-3] " + "nicht valide",
    "[-4] " + "unzulaessige Mehrfachantwort",
    "[-5] " + "in Fragebogenversion nicht enthalten",
    "[-6] " + "Fragebogenversion mit geaenderter Filterfuehrung",
    "[-8] " + "Frage in diesem Jahr nicht Teil des Frageprogramms"
  ]

  /** A label whose code is negative ("[-k] ..."): the survey's form of a non-response. */
  predicate NegativeCode(s: string) {
    |s| > 1 && s[0] == '[' && s[1] == '-'
  }

  lemma {:induction false} UnconsiderableCodes(s: string)
    requires s in Unconsiderable
    ensures NegativeCode(s)
  {
    assert s == Unconsiderable[0] || s == Unconsiderable[1] || s == Unconsiderable[2] || s == Unconsiderable[3]
        || s == Unconsiderable[4] || s == Unconsiderable[5] || s == Unconsiderable[6];
  }

  /** A label with a non-negative code ("[k] ...") is never a non-response. */
  lemma PositiveLabelIsAnswer(s: string)
    requires |s| > 1 && s[0] == '[' && s[1] != '-'
    ensures s !in Unconsiderable
  {
    forall u | u in Unconsiderable ensures NegativeCode(u) {
      UnconsiderableCodes(u);
    }
  }

  predicate IsSentinel(c: Cell) {
    c.Some? && c.value.Str? && c.value.s in Unconsiderable
  }

  /** `replace(Unconsiderable, np.nan)` on one cell. */
  function DropSentinel(c: Cell): (r: Cell)
    ensures IsSentinel(c) ==> r.None?
    ensures !IsSentinel(c) ==> r == c
  {
    if IsSentinel(c) then None else c
  }

  /** No non-response label reads as a number. */
  lemma SentinelsAreNotNumbers(c: Cell)
    requires IsSentinel(c)
    ensures ToNumeric(c).None?
  {
    UnconsiderableCodes(c.value.s);
    LabelIsNotNumber(c.value.s);
  }

  /** The type tags that replace_invalid_responses accepts. */
  predicate KnownType(dataType: string) {
    dataType == "int" || dataType == "float" || dataType == "category"
  }

  /**
   * A cell after replace_invalid_responses. Non-response labels become missing;
   * under "int" and "float" every other cell is coerced to a number, so
   * non-numeric text becomes missing as well and numbers keep their value.
   */
  function CleanCell(c: Cell, dataType: string): (r: Cell)
    ensures IsSentinel(c) ==> r.None?
    ensures (dataType == "int" || dataType == "float") ==> r == ToNumeric(c)
    ensures (dataType == "int" || dataType == "float") ==> r.None? || r.value.Num?
    ensures dataType != "int" && dataType != "float" && !IsSentinel(c) ==> r == c
  {
    if dataType == "int" || dataType == "float" then
      (if IsSentinel(c) then SentinelsAreNotNumbers(c); None else ToNumeric(c))
    else DropSentinel(c)
  }

  /**
   * replace_invalid_responses: sentinel labels in `column` become missing, then
   * the column is cast to the tagged type. The column must exist (KeyError);
   * an unknown tag and, under "int", a fractional number raise. Only `column` changes.
   */
  function ReplaceInvalidResponses(f: Frame, column: string, dataType: string): (r: Result<Frame, Error>)
    ensures column !in f.columns ==> r == Err(MissingColumn(column))
    ensures column in f.columns && !KnownType(dataType) ==> r == Err(InvalidDataType(dataType))
    ensures column in f.columns && (dataType == "float" || dataType == "category") ==> r.Ok?
    ensures column in f.columns && dataType == "int" ==>
      (r.Ok? <==> forall i :: 0 <= i < |f.rows| ==> ToInt64(At(f.rows[i], column)).Some?)
    ensures r.Err? && column in f.columns && dataType == "int" ==> r.error == NotIntegral(column)
    ensures r.Ok? ==> r.value.columns == f.columns && |r.value.rows| == |f.rows|
    ensures r.Ok? ==> forall i :: 0 <= i < |f.rows| ==> At(r.value.rows[i], column) == CleanCell(At(f.rows[i], column), dataType)
    ensures r.Ok? ==> forall i, d :: 0 <= i < |f.rows| && d != column ==> At(r.value.rows[i], d) == At(f.rows[i], d)
  {
    if column !in f.columns then Err(MissingColumn(column))
    else
      var cleaned := Assign(f, column, row => DropSentinel(At(row, column)));
      assert forall i :: 0 <= i < |f.rows| ==> ToInt64(At(cleaned.rows[i], column)) == ToInt64(At(f.rows[i], column)) by {
        forall i | 0 <= i < |f.rows| ensures ToInt64(At(cleaned.rows[i], column)) == ToInt64(At(f.rows[i], column)) {
          if IsSentinel(At(f.rows[i], column)) {
            SentinelsAreNotNumbers(At(f.rows[i], column));
          }
        }
      }
      if dataType == "int" then TryAssign(cleaned, column, row => ToInt64(At(row, column)), NotIntegral(column))
      else if dataType == "float" then Ok(Assign(cleaned, column, row => ToNumeric(At(row, column))))
      else if dataType == "category" then Ok(cleaned)
      else Err(InvalidDataType(dataType))
  }

  // ---------------------------------------------------------------------------
  // pgen_treatment
  // ---------------------------------------------------------------------------

  /** The person-and-household key on which two survey years are joined. */
  const PersonKey: seq<string> := ["pid", "hid"]

  /** The columns pgen_treatment returns. */
  const TreatmentColumns: seq<string> := ["pid", "went_unemployed", "hid"]

  /** Subtraction of two cells; missing when either operand is missing. */
  function Minus(a: Cell, b: Cell): (r: Cell)
    ensures r.Some? <==> a.Some? && a.value.Num? && b.Some? && b.value.Num?
    ensures r.Some? ==> r.value == Num(a.value.x - b.value.x)
  {
    if a.Some? && a.value.Num? && b.Some? && b.value.Num? then Some(Num(a.value.x - b.value.x)) else None
  }

  /** `unemp_duration = pgexpue_2017 - pgexpue_2013` on a merged row. */
  function UnempDuration(row: Row): Cell {
    Minus(At(row, "pgexpue_2017"), At(row, "pgexpue_2013"))
  }

  /** `went_unemployed = 1 if unemp_duration >= 1 else 0`; a missing duration compares false. */
  function WentUnemployed(row: Row): Cell {
    var d := At(row, "unemp_duration");
    if d.Some? && d.value.Num? && d.value.x >= 1.0 then Some(Num(1.0)) else Some(Num(0.0))
  }

  /** The treatment flag for unemployment experience `a` in 2013 and `b` in 2017. */
  function Flag(a: Cell, b: Cell): (r: Cell)
    ensures r == Some(Num(0.0)) || r == Some(Num(1.0))
    ensures r == Some(Num(1.0)) <==> a.Some? && a.value.Num? && b.Some? && b.value.Num? && b.value.x - a.value.x >= 1.0
  {
    WentUnemployed(map["unemp_duration" := Minus(b, a)])
  }

  /** The 2013 (or 2017) rows of the pgen extract, with pgexpue cleaned to a float. */
  function TreatmentYear(df: Frame, year: int): (r: Result<Frame, Error>)
    ensures r.Ok? <==> "pgexpue" in df.columns && "syear" in df.columns
    ensures r.Ok? ==> r.value.columns == df.columns
  {
    var cleaned :- ReplaceInvalidResponses(df, "pgexpue", "float");
    FilterByYear(cleaned, year)
  }

  /** pgen_treatment, lines 86-96: the 2013 rows left-joined to the 2017 rows on (pid, hid). */
  function TreatmentMerged(df: Frame): Result<Frame, Error> {
    var start :- TreatmentYear(df, 2013);
    var end :- TreatmentYear(df, 2017);
    Merge(start, end, PersonKey, Left, "_2013", "_2017")
  }

  /** pgen_treatment: one treatment flag per 2013 row (and per 2017 partner, if any). */
  function PgenTreatment(df: Frame): (r: Result<Frame, Error>)
    ensures "pgexpue" !in df.columns ==> r == Err(MissingColumn("pgexpue"))
    ensures "pgexpue" in df.columns && "syear" !in df.columns ==> r == Err(MissingColumn("syear"))
    ensures r.Ok? ==> r.value.columns == TreatmentColumns
  {
    var merged :- TreatmentMerged(df);
    var withDuration := Assign(merged, "unemp_duration", UnempDuration);
    var flagged := Assign(withDuration, "went_unemployed", WentUnemployed);
    Select(flagged, TreatmentColumns)
  }

  /**
   * Output row `o` carries the key of 2013 row `l`, and its flag compares `l`
   * with one matching 2017 row, or is 0 when `l` has no 2017 partner.
   */
  predicate TreatedRow(o: Row, l: Row, ends: seq<Row>) {
    && At(o, "pid") == At(l, "pid")
    && At(o, "hid") == At(l, "hid")
    && (|| (exists r :: r in ends && Matches(l, r, PersonKey) && At(o, "went_unemployed") == Flag(At(l, "pgexpue"), At(r, "pgexpue")))
        || ((forall r :: r in ends ==> !Matches(l, r, PersonKey)) && At(o, "went_unemployed") == Some(Num(0.0))))
  }

  /** Output row `i` of pgen_treatment holds the key of merged row `i` and the flag of its two `pgexpue` values. */
  lemma TreatmentRowsLine(df: Frame, i: int)
    requires PgenTreatment(df).Ok? && 0 <= i < |PgenTreatment(df).value.rows|
    ensures var o := PgenTreatment(df).value.rows[i];
      var m := TreatmentMerged(df).value.rows[i];
      && At(o, "pid") == At(m, "pid") && At(o, "hid") == At(m, "hid")
      && At(o, "went_unemployed") == Flag(At(m, "pgexpue_2013"), At(m, "pgexpue_2017"))
  {
  }

  /** The column layout of the merge inside pgen_treatment. */
  function TreatmentShape(df: Frame): Shape
    requires TreatmentYear(df, 2013).Ok? && TreatmentYear(df, 2017).Ok?
  {
    MergeShape(TreatmentYear(df, 2013).value, TreatmentYear(df, 2017).value, PersonKey, "_2013", "_2017")
  }

  /** The suffixed column names that the code reads after its year-on-year merges. */
  lemma SuffixedNames()
    ensures "pgexpue" + "_2013" == "pgexpue_2013" && "pgexpue" + "_2017" == "pgexpue_2017"
    ensures "aggregate_loneliness" + "_2013" == "aggregate_loneliness_2013"
    ensures "aggregate_loneliness" + "_2017" == "aggregate_loneliness_2017"
    ensures "health" + "_2013" == "health_2013"
  {
  }

  /** Column facts for a merge of two years of one extract on (pid, hid). */
  lemma YearMergeNames(start: Frame, end: Frame, how: How, column: string)
    requires Merge(start, end, PersonKey, how, "_2013", "_2017").Ok?
    requires column in start.columns && column in end.columns && column != "pid" && column != "hid"
    ensures var s := MergeShape(start, end, PersonKey, "_2013", "_2017");
      && Distinct(s.Columns())
      && "pid" in s.left && "hid" in s.left && "pid" in s.on && "hid" in s.on
      && column in s.left && column in s.right && column !in s.on
      && s.LeftName(column) == column + "_2013" && s.RightName(column) == column + "_2017"
  {
  }

  /** Facts about the merge inside pgen_treatment that the row lemmas below share. */
  lemma TreatmentMergeFacts(df: Frame)
    requires PgenTreatment(df).Ok?
    ensures TreatmentYear(df, 2013).Ok? && TreatmentYear(df, 2017).Ok?
    ensures var s := TreatmentShape(df);
      && TreatmentMerged(df).value.rows == MergeRows(s, Left, TreatmentYear(df, 2013).value.rows, TreatmentYear(df, 2017).value.rows)
      && Distinct(s.Columns())
      && s.on == PersonKey
      && "pid" in s.left && "hid" in s.left
      && "pgexpue" in s.left && "pgexpue" in s.right
      && s.LeftName("pgexpue") == "pgexpue_2013" && s.RightName("pgexpue") == "pgexpue_2017"
      && |PgenTreatment(df).value.rows| == |TreatmentMerged(df).value.rows|
  {
    var start := TreatmentYear(df, 2013).value;
    var end := TreatmentYear(df, 2017).value;
    assert TreatmentMerged(df) == Merge(start, end, PersonKey, Left, "_2013", "_2017");
    MergeRowsOf(start, end, PersonKey, Left, "_2013", "_2017");
    YearMergeNames(start, end, Left, "pgexpue");
    SuffixedNames();
  }

  /** The merged row `m` of 2013 row `l`, projected to `o`, is a treated row of `l`. */
  lemma TreatedJoin(s: Shape, l: Row, ends: seq<Row>, m: Row, o: Row)
    requires Distinct(s.Columns()) && s.on == PersonKey && "pid" in s.left && "hid" in s.left
    requires "pgexpue" in s.left && "pgexpue" in s.right
    requires s.LeftName("pgexpue") == "pgexpue_2013" && s.RightName("pgexpue") == "pgexpue_2017"
    requires FromLeftRow(s, Left, l, ends, m)
    requires At(o, "pid") == At(m, "pid") && At(o, "hid") == At(m, "hid")
    requires At(o, "went_unemployed") == Flag(At(m, "pgexpue_2013"), At(m, "pgexpue_2017"))
    ensures TreatedRow(o, l, ends)
  {
    if exists r :: r in ends && Matches(l, r, s.on) && m == JoinRow(s, l, r) {
      var r :| r in ends && Matches(l, r, s.on) && m == JoinRow(s, l, r);
      JoinRowLeft(s, l, r, "pgexpue");
      JoinRowRight(s, l, r, "pgexpue");
      JoinRowKey(s, l, r, "pid");
      JoinRowKey(s, l, r, "hid");
    } else {
      JoinRowLeft(s, l, map[], "pgexpue");
      JoinRowRight(s, l, map[], "pgexpue");
      JoinRowKey(s, l, map[], "pid");
      JoinRowKey(s, l, map[], "hid");
    }
  }

  /** Every output row of pgen_treatment stems from a 2013 row as `TreatedRow` describes. */
  lemma TreatmentRowSound(df: Frame, o: Row)
    requires PgenTreatment(df).Ok? && o in PgenTreatment(df).value.rows
    ensures TreatmentYear(df, 2013).Ok? && TreatmentYear(df, 2017).Ok?
    ensures exists l :: l in TreatmentYear(df, 2013).value.rows && TreatedRow(o, l, TreatmentYear(df, 2017).value.rows)
  {
    TreatmentMergeFacts(df);
    var out := PgenTreatment(df).value;
    var starts := TreatmentYear(df, 2013).value.rows;
    var ends := TreatmentYear(df, 2017).value.rows;
    var merged := TreatmentMerged(df).value;
    var s := TreatmentShape(df);
    var i :| 0 <= i < |out.rows| && out.rows[i] == o;
    TreatmentRowsLine(df, i);
    var m := merged.rows[i];
    MergeRowsSound(s, Left, starts, ends, m);
    var l :| l in starts && FromLeftRow(s, Left, l, ends, m);
    TreatedJoin(s, l, ends, m, o);
  }

  /** Every merged row of pgen_treatment reaches the output with its key. */
  lemma TreatmentMergedReachesOutput(df: Frame, m: Row)
    requires PgenTreatment(df).Ok?
    requires TreatmentMerged(df).Ok? && m in TreatmentMerged(df).value.rows
    ensures exists o :: o in PgenTreatment(df).value.rows && At(o, "pid") == At(m, "pid") && At(o, "hid") == At(m, "hid")
  {
    TreatmentMergeFacts(df);
    var merged := TreatmentMerged(df).value;
    var i :| 0 <= i < |merged.rows| && merged.rows[i] == m;
    TreatmentRowsLine(df, i);
    assert PgenTreatment(df).value.rows[i] in PgenTreatment(df).value.rows;
  }

  /** pgen_treatment is a left join: every 2013 row yields an output row with its key. */
  lemma TreatmentKeepsStarts(df: Frame, l: Row)
    requires PgenTreatment(df).Ok?
    requires TreatmentYear(df, 2013).Ok? && l in TreatmentYear(df, 2013).value.rows
    ensures exists o :: o in PgenTreatment(df).value.rows && At(o, "pid") == At(l, "pid") && At(o, "hid") == At(l, "hid")
  {
    TreatmentMergeFacts(df);
    var s := TreatmentShape(df);
    MergeRowsKeepsLeft(s, TreatmentYear(df, 2013).value.rows, TreatmentYear(df, 2017).value.rows, l);
    var r :| JoinRow(s, l, r) in TreatmentMerged(df).value.rows;
    JoinRowKey(s, l, r, "pid");
    JoinRowKey(s, l, r, "hid");
    TreatmentMergedReachesOutput(df, JoinRow(s, l, r));
  }

  /** A 2013 row with a 2017 partner of the same (pid, hid) yields an output row flagged by that pair. */
  lemma TreatmentPairFlag(df: Frame, l: Row, r: Row)
    requires PgenTreatment(df).Ok?
    requires TreatmentYear(df, 2013).Ok? && l in TreatmentYear(df, 2013).value.rows
    requires TreatmentYear(df, 2017).Ok? && r in TreatmentYear(df, 2017).value.rows
    requires Matches(l, r, PersonKey)
    ensures exists o :: (o in PgenTreatment(df).value.rows
      && At(o, "pid") == At(l, "pid") && At(o, "hid") == At(l, "hid")
      && At(o, "went_unemployed") == Flag(At(l, "pgexpue"), At(r, "pgexpue")))
  {
    TreatmentMergeFacts(df);
    var s := TreatmentShape(df);
    var merged := TreatmentMerged(df).value;
    MergeRowsComplete(s, Left, TreatmentYear(df, 2013).value.rows, TreatmentYear(df, 2017).value.rows, l, r);
    var m := JoinRow(s, l, r);
    var i :| 0 <= i < |merged.rows| && merged.rows[i] == m;
    TreatmentRowsLine(df, i);
    JoinRowLeft(s, l, r, "pgexpue");
    JoinRowRight(s, l, r, "pgexpue");
    JoinRowKey(s, l, r, "pid");
    JoinRowKey(s, l, r, "hid");
    assert PgenTreatment(df).value.rows[i] in PgenTreatment(df).value.rows;
  }

  /** Every treatment flag is 0 or 1. */
  lemma TreatmentFlagIsBinary(df: Frame, o: Row)
    requires PgenTreatment(df).Ok? && o in PgenTreatment(df).value.rows
    ensures At(o, "went_unemployed") == Some(Num(0.0)) || At(o, "went_unemployed") == Some(Num(1.0))
  {
    var out := PgenTreatment(df).value;
    var i :| 0 <= i < |out.rows| && out.rows[i] == o;
    TreatmentRowsLine(df, i);
  }

  // ---------------------------------------------------------------------------
  // ppath_functions
  // ---------------------------------------------------------------------------

  /** The label of the male sex in the ppath extract. */
  const Male := "[1] maennlich"

  /** The columns ppath_functions returns. */
  const PpathColumns: seq<string> := ["age", "pid", "sex"]

  /** `np.where(sex == "[1] maennlich", 1, 0)`: any other value, missing included, codes as 0. */
  function SexCode(row: Row): (r: Cell)
    ensures r == Some(Num(1.0)) <==> At(row, "sex") == Some(Str(Male))
    ensures r == Some(Num(0.0)) || r == Some(Num(1.0))
  {
    if At(row, "sex") == Some(Str(Male)) then Some(Num(1.0)) else Some(Num(0.0))
  }

  /** `2013.0 - gebjahr` on one row: missing stays missing, and text makes the subtraction raise (`None`). */
  function AgeIn2013(row: Row): Option<Cell> {
    match At(row, "gebjahr")
    case None => Some(None)
    case Some(Num(x)) => Some(Some(Num(2013.0 - x)))
    case Some(Str(_)) => None
  }

  predicate IsText(c: Cell) {
    c.Some? && c.value.Str?
  }

  /** `age >= 22`, false for a missing age. */
  predicate AgeFrom22(row: Row) {
    var a := At(row, "age");
    a.Some? && a.value.Num? && a.value.x >= 22.0
  }

  /** `age <= 64`, false for a missing age. */
  predicate AgeTo64(row: Row) {
    var a := At(row, "age");
    a.Some? && a.value.Num? && a.value.x <= 64.0
  }

  /** The birth year of a row is a number, and the age it gives in 2013 lies in 22..64. */
  predicate WorkingAge(r: Row) {
    var g := At(r, "gebjahr");
    g.Some? && g.value.Num? && 22.0 <= 2013.0 - g.value.x <= 64.0
  }

  /** The extract's columns that ppath_functions reads. */
  const PpathInputs: seq<string> := ["pid", "sex", "gebjahr"]

  /** Output row `o` is derived from input row `r`: same person, coded sex, age 2013 minus the birth year. */
  predicate PpathOf(o: Row, r: Row)
    requires WorkingAge(r)
  {
    && At(o, "pid") == At(r, "pid")
    && At(o, "sex") == SexCode(r)
    && At(o, "age") == Some(Num(2013.0 - At(r, "gebjahr").value.x))
  }

  /**
   * ppath_functions, lines 119-122: the three columns, sex coded and an age
   * column added, one row per input row; the age filters of lines 123-124
   * keep exactly the rows whose birth year is a working age.
   */
  function PpathWithAge(df: Frame): (r: Result<Frame, Error>)
    ensures r.Ok? <==> (forall c :: c in PpathInputs ==> c in df.columns)
                       && forall i :: 0 <= i < |df.rows| ==> !IsText(At(df.rows[i], "gebjahr"))
    ensures r.Ok? ==> |r.value.rows| == |df.rows|
    ensures r.Ok? ==> forall i :: 0 <= i < |df.rows| ==>
      (AgeFrom22(r.value.rows[i]) && AgeTo64(r.value.rows[i]) <==> WorkingAge(df.rows[i]))
    ensures r.Ok? ==> forall i :: 0 <= i < |df.rows| && WorkingAge(df.rows[i]) ==> PpathOf(r.value.rows[i], df.rows[i])
  {
    var picked :- Select(df, PpathInputs);
    var coded := Assign(picked, "sex", SexCode);
    var aged := TryAssign(coded, "age", AgeIn2013, NotNumericOperand("gebjahr"));
    if aged.Ok? then PpathStages(df, picked, coded, aged.value); aged else aged
  }

  /** One input row through the selection, the sex coding and the age column. */
  lemma PpathStageRow(r: Row, p: Row, c: Row, a: Row)
    requires forall d :: d in PpathInputs ==> At(p, d) == At(r, d)
    requires At(c, "sex") == SexCode(p) && forall d :: d != "sex" ==> At(c, d) == At(p, d)
    requires AgeIn2013(c).Some? && At(a, "age") == AgeIn2013(c).value
    requires forall d :: d != "age" ==> At(a, d) == At(c, d)
    ensures AgeFrom22(a) && AgeTo64(a) <==> WorkingAge(r)
    ensures WorkingAge(r) ==> PpathOf(a, r)
  {
    assert PpathInputs == ["pid", "sex", "gebjahr"];
    assert At(c, "gebjahr") == At(p, "gebjahr") == At(r, "gebjahr");
    assert At(a, "sex") == At(c, "sex") == SexCode(r);
    assert At(a, "pid") == At(c, "pid") == At(r, "pid");
  }

  lemma PpathStages(df: Frame, picked: Frame, coded: Frame, aged: Frame)
    requires Select(df, PpathInputs) == Ok(picked)
    requires coded == Assign(picked, "sex", SexCode)
    requires TryAssign(coded, "age", AgeIn2013, NotNumericOperand("gebjahr")) == Ok(aged)
    ensures |aged.rows| == |df.rows|
    ensures forall i :: 0 <= i < |df.rows| ==>
      (AgeFrom22(aged.rows[i]) && AgeTo64(aged.rows[i]) <==> WorkingAge(df.rows[i]))
    ensures forall i :: 0 <= i < |df.rows| && WorkingAge(df.rows[i]) ==> PpathOf(aged.rows[i], df.rows[i])
  {
    forall i | 0 <= i < |df.rows|
      ensures AgeFrom22(aged.rows[i]) && AgeTo64(aged.rows[i]) <==> WorkingAge(df.rows[i])
      ensures WorkingAge(df.rows[i]) ==> PpathOf(aged.rows[i], df.rows[i])
    {
      PpathStageRow(df.rows[i], picked.rows[i], coded.rows[i], aged.rows[i]);
    }
  }

  /** ppath_functions, lines 119-124: the rows with sex coded and an age of 22 to 64. */
  function PpathAged(df: Frame): (r: Result<Frame, Error>)
    ensures r.Ok? <==> PpathWithAge(df).Ok?
    ensures r.Ok? ==> forall w :: w in r.value.rows <==>
      exists i :: 0 <= i < |df.rows| && WorkingAge(df.rows[i]) && w == PpathWithAge(df).value.rows[i]
  {
    var aged :- PpathWithAge(df);
    var adults := Where(aged, AgeFrom22);
    Ok(Where(adults, AgeTo64))
  }

  /**
   * ppath_functions: (age, pid, sex) for the persons aged 22 to 64 in 2013.
   * The selection raises on a missing column, the subtraction on a text birth year.
   */
  function PpathFunctions(df: Frame): (r: Result<Frame, Error>)
    ensures r.Ok? <==> PpathAged(df).Ok?
    ensures r.Ok? ==> r.value.columns == PpathColumns
  {
    var working :- PpathAged(df);
    Select(working, PpathColumns)
  }

  /** ppath_functions fails exactly when an input column is missing or some birth year is text. */
  lemma PpathSucceeds(df: Frame)
    ensures PpathFunctions(df).Ok? <==> (forall c :: c in PpathInputs ==> c in df.columns)
                                        && forall i :: 0 <= i < |df.rows| ==> !IsText(At(df.rows[i], "gebjahr"))
  {
  }

  /**
   * Every output row of ppath_functions comes from an input row whose birth
   * year is a number giving an age of 22 to 64; it carries that person's id,
   * the coded sex and age = 2013 - gebjahr.
   */
  lemma PpathRowSound(df: Frame, o: Row)
    requires PpathFunctions(df).Ok? && o in PpathFunctions(df).value.rows
    ensures exists i :: 0 <= i < |df.rows| && WorkingAge(df.rows[i]) && PpathOf(o, df.rows[i])
  {
    var working := PpathAged(df).value;
    var out := PpathFunctions(df).value;
    var k :| 0 <= k < |out.rows| && out.rows[k] == o;
    assert working.rows[k] in working.rows;
    var i :| 0 <= i < |df.rows| && WorkingAge(df.rows[i]) && working.rows[k] == PpathWithAge(df).value.rows[i];
  }

  /** Every input row with a numeric birth year giving an age of 22 to 64 is kept. */
  lemma PpathKeepsWorkingAge(df: Frame, i: int)
    requires PpathFunctions(df).Ok? && 0 <= i < |df.rows| && WorkingAge(df.rows[i])
    ensures exists o :: o in PpathFunctions(df).value.rows && PpathOf(o, df.rows[i])
  {
    var working := PpathAged(df).value;
    var out := PpathFunctions(df).value;
    var w := PpathWithAge(df).value.rows[i];
    assert w in working.rows;
    var k :| 0 <= k < |working.rows| && working.rows[k] == w;
    assert out.rows[k] in out.rows;
  }

  /** Every age that ppath_functions returns is a number from 22 to 64, and every sex code is 0 or 1. */
  lemma PpathAgeBounds(df: Frame, o: Row)
    requires PpathFunctions(df).Ok? && o in PpathFunctions(df).value.rows
    ensures At(o, "age").Some? && At(o, "age").value.Num?
    ensures 22.0 <= At(o, "age").value.x <= 64.0
    ensures At(o, "sex") == Some(Num(0.0)) || At(o, "sex") == Some(Num(1.0))
  {
    PpathRowSound(df, o);
  }

  // ---------------------------------------------------------------------------
  // pl_subfunction
  // ---------------------------------------------------------------------------

  /** The pl item codes that pl_subfunction renames, and the names it gives them, in the same order. */
  const PlSources: seq<string> := ["ple0008", "plj0587", "plj0588", "plj0589"]
  const PlTargets: seq<string> := ["health", "Company_missing", "Feeling_left_out", "socially_isolated"]

  /** The column that ends up under `PlTargets[k]`: its item code if present (the rename overwrites), else the new name itself. */
  function PlSourceOf(cols: seq<string>, k: int): string
    requires 0 <= k < |PlSources|
  {
    if PlSources[k] in cols then PlSources[k] else PlTargets[k]
  }

  /** The renaming of pl_subfunction is a dictionary: codes and new names are all different. */
  lemma PlRenamesDistinct()
    ensures DistinctRenames(PlSources, PlTargets)
  {
  }

  /** pl_subfunction, lines 142-149: the four renames. */
  lemma PlRenameFacts(f: Frame)
    ensures var r := RenameAll(f, PlSources, PlTargets);
      && |r.columns| == |f.columns| && |r.rows| == |f.rows|
      && (forall i :: 0 <= i < |f.columns| ==> r.columns[i] == RenamedName(PlSources, PlTargets, f.columns[i]))
      && (forall k :: 0 <= k < |PlTargets| ==> (PlTargets[k] in r.columns <==> PlSources[k] in f.columns || PlTargets[k] in f.columns))
      && (forall i, k :: 0 <= i < |f.rows| && 0 <= k < |PlTargets| ==> At(r.rows[i], PlTargets[k]) == At(f.rows[i], PlSourceOf(f.columns, k)))
      && (forall i, d :: 0 <= i < |f.rows| && d !in PlSources && d !in PlTargets ==> At(r.rows[i], d) == At(f.rows[i], d))
  {
    RenameAllColumns(f, PlSources, PlTargets);
    PlRenameTargets(f);
    PlRenameOthers(f);
  }

  lemma PlRenameTargets(f: Frame)
    ensures var r := RenameAll(f, PlSources, PlTargets);
      && (forall k :: 0 <= k < |PlTargets| ==> (PlTargets[k] in r.columns <==> PlSources[k] in f.columns || PlTargets[k] in f.columns))
      && (forall i, k :: 0 <= i < |f.rows| && 0 <= k < |PlTargets| ==> At(r.rows[i], PlTargets[k]) == At(f.rows[i], PlSourceOf(f.columns, k)))
  {
    PlRenamesDistinct();
    forall k | 0 <= k < |PlTargets| {
      RenameAllTarget(f, PlSources, PlTargets, k);
    }
  }

  lemma PlRenameOthers(f: Frame)
    ensures var r := RenameAll(f, PlSources, PlTargets);
      forall i, d :: 0 <= i < |f.rows| && d !in PlSources && d !in PlTargets ==> At(r.rows[i], d) == At(f.rows[i], d)
  {
    forall d | d !in PlSources && d !in PlTargets {
      RenameAllOthers(f, PlSources, PlTargets, d);
    }
  }

  /**
   * pl_subfunction: rename the four items, then replace the non-response
   * labels in each by missing. It raises a KeyError when an item is found
   * under neither its code nor its new name.
   */
  function PlSubfunction(f: Frame): (r: Result<Frame, Error>)
    ensures r.Ok? <==> forall k :: 0 <= k < |PlTargets| ==> PlSources[k] in f.columns || PlTargets[k] in f.columns
    ensures r.Err? ==> r.error.MissingColumn? && r.error.name in PlTargets
    ensures r.Ok? ==> |r.value.columns| == |f.columns| && |r.value.rows| == |f.rows|
    ensures r.Ok? ==> forall i :: 0 <= i < |f.columns| ==> r.value.columns[i] == RenamedName(PlSources, PlTargets, f.columns[i])
    ensures r.Ok? ==> forall i, k :: 0 <= i < |f.rows| && 0 <= k < |PlTargets| ==>
      At(r.value.rows[i], PlTargets[k]) == DropSentinel(At(f.rows[i], PlSourceOf(f.columns, k)))
    ensures r.Ok? ==> forall i, d :: 0 <= i < |f.rows| && d !in PlSources && d !in PlTargets ==>
      At(r.value.rows[i], d) == At(f.rows[i], d)
  {
    var renamed := RenameAll(f, PlSources, PlTargets);
    var r := CleanCategories(renamed, PlTargets);
    PlRenameFacts(f);
    PlSubfunctionFacts(f, renamed, r);
    r
  }

  lemma PlSubfunctionFacts(f: Frame, renamed: Frame, r: Result<Frame, Error>)
    requires |renamed.columns| == |f.columns| && |renamed.rows| == |f.rows|
    requires forall i :: 0 <= i < |f.columns| ==> renamed.columns[i] == RenamedName(PlSources, PlTargets, f.columns[i])
    requires forall k :: 0 <= k < |PlTargets| ==> (PlTargets[k] in renamed.columns <==> PlSources[k] in f.columns || PlTargets[k] in f.columns)
    requires forall i, k :: 0 <= i < |f.rows| && 0 <= k < |PlTargets| ==> At(renamed.rows[i], PlTargets[k]) == At(f.rows[i], PlSourceOf(f.columns, k))
    requires forall i, d :: 0 <= i < |f.rows| && d !in PlSources && d !in PlTargets ==> At(renamed.rows[i], d) == At(f.rows[i], d)
    requires r.Ok? <==> forall c :: c in PlTargets ==> c in renamed.columns
    requires r.Ok? ==> r.value.columns == renamed.columns && |r.value.rows| == |renamed.rows|
    requires r.Ok? ==> forall i, c :: 0 <= i < |renamed.rows| && c in PlTargets ==> At(r.value.rows[i], c) == DropSentinel(At(renamed.rows[i], c))
    requires r.Ok? ==> forall i, d :: 0 <= i < |renamed.rows| && d !in PlTargets ==> At(r.value.rows[i], d) == At(renamed.rows[i], d)
    ensures r.Ok? <==> forall k :: 0 <= k < |PlTargets| ==> PlSources[k] in f.columns || PlTargets[k] in f.columns
    ensures r.Ok? ==> |r.value.columns| == |f.columns| && |r.value.rows| == |f.rows|
    ensures r.Ok? ==> forall i :: 0 <= i < |f.columns| ==> r.value.columns[i] == RenamedName(PlSources, PlTargets, f.columns[i])
    ensures r.Ok? ==> forall i, k :: 0 <= i < |f.rows| && 0 <= k < |PlTargets| ==>
      At(r.value.rows[i], PlTargets[k]) == DropSentinel(At(f.rows[i], PlSourceOf(f.columns, k)))
    ensures r.Ok? ==> forall i, d :: 0 <= i < |f.rows| && d !in PlSources && d !in PlTargets ==>
      At(r.value.rows[i], d) == At(f.rows[i], d)
  {
    assert (forall c :: c in PlTargets ==> c in renamed.columns) <==> (forall k :: 0 <= k < |PlTargets| ==> PlTargets[k] in renamed.columns);
    if r.Ok? {
      forall i, k | 0 <= i < |f.rows| && 0 <= k < |PlTargets|
        ensures At(r.value.rows[i], PlTargets[k]) == DropSentinel(At(f.rows[i], PlSourceOf(f.columns, k)))
      {
        assert PlTargets[k] in PlTargets;
      }
    }
  }

  /**
   * `replace_invalid_responses(df, c, "category")` for each `c` of `cols` in
   * turn (pl_subfunction, lines 150-153): the first column missing raises.
   */
  function CleanCategories(f: Frame, cols: seq<string>): (r: Result<Frame, Error>)
    ensures r.Ok? <==> forall c :: c in cols ==> c in f.columns
    ensures r.Err? ==> r.error.MissingColumn? && r.error.name in cols
    ensures r.Ok? ==> r.value.columns == f.columns && |r.value.rows| == |f.rows|
    ensures r.Ok? ==> forall i, c :: 0 <= i < |f.rows| && c in cols ==> At(r.value.rows[i], c) == DropSentinel(At(f.rows[i], c))
    ensures r.Ok? ==> forall i, d :: 0 <= i < |f.rows| && d !in cols ==> At(r.value.rows[i], d) == At(f.rows[i], d)
    decreases |cols|
  {
    if cols == [] then Ok(f)
    else
      var g :- ReplaceInvalidResponses(f, cols[0], "category");
      var r := CleanCategories(g, cols[1..]);
      if r.Ok? then CleanCategoriesStep(f, g, r.value, cols); r else r
  }

  lemma CleanCategoriesStep(f: Frame, g: Frame, r: Frame, cols: seq<string>)
    requires cols != [] && ReplaceInvalidResponses(f, cols[0], "category") == Ok(g)
    requires |r.rows| == |g.rows|
    requires forall i, c :: 0 <= i < |g.rows| && c in cols[1..] ==> At(r.rows[i], c) == DropSentinel(At(g.rows[i], c))
    requires forall i, d :: 0 <= i < |g.rows| && d !in cols[1..] ==> At(r.rows[i], d) == At(g.rows[i], d)
    ensures forall i, c :: 0 <= i < |f.rows| && c in cols ==> At(r.rows[i], c) == DropSentinel(At(f.rows[i], c))
    ensures forall i, d :: 0 <= i < |f.rows| && d !in cols ==> At(r.rows[i], d) == At(f.rows[i], d)
  {
    forall i, d | 0 <= i < |f.rows| && d !in cols ensures At(r.rows[i], d) == At(f.rows[i], d) {
      assert d !in cols[1..] && d != cols[0];
    }
    forall i, c | 0 <= i < |f.rows| && c in cols ensures At(r.rows[i], c) == DropSentinel(At(f.rows[i], c)) {
      if c == cols[0] {
        assert At(g.rows[i], c) == DropSentinel(At(f.rows[i], c));
        if c in cols[1..] {
          assert At(r.rows[i], c) == DropSentinel(DropSentinel(At(f.rows[i], c)));
        } else {
          assert At(r.rows[i], c) == At(g.rows[i], c);
        }
      } else {
        assert c in cols[1..];
        assert At(g.rows[i], c) == At(f.rows[i], c);
      }
    }
  }

  // ---------------------------------------------------------------------------
  // replace_categorical_values, mapping1, mapping2
  // ---------------------------------------------------------------------------

  /** `replace(mapping)` on one cell: a label that is a key of `mapping` becomes its value. */
  function Relabel(c: Cell, mapping: map<string, string>): Cell {
    if c.Some? && c.value.Str? && c.value.s in mapping then Some(Str(mapping[c.value.s])) else c
  }

  /**
   * `replace(mapping)` then `astype("float")` on one cell; `None` when the
   * cast raises, that is, when the cell is text that is neither a key of
   * `mapping` nor a number, or a key whose value is not a number.
   */
  function Recode(c: Cell, mapping: map<string, string>): (r: Option<Cell>)
    ensures (c.None? || c.value.Num?) ==> r == Some(c)
    ensures r.Some? ==> r.value.None? || r.value.value.Num?
    ensures c.Some? && c.value.Str? && c.value.s in mapping ==>
      r == (match ParseNumber(mapping[c.value.s]) case Some(x) => Some(Some(Num(x))) case None => None)
    ensures c.Some? && c.value.Str? && c.value.s !in mapping ==>
      r == (match ParseNumber(c.value.s) case Some(x) => Some(Some(Num(x))) case None => None)
  {
    AsFloat(Relabel(c, mapping))
  }

  /** A recoded cell is a float or missing, so recoding it again leaves it as it is. */
  lemma RecodeIdempotent(c: Cell, mapping: map<string, string>)
    requires Recode(c, mapping).Some?
    ensures Recode(Recode(c, mapping).value, mapping) == Recode(c, mapping)
  {
  }

  /** Recode each of `cols` in turn; the first column with a cell that cannot be cast raises. */
  function RecodeColumns(f: Frame, cols: seq<string>, mapping: map<string, string>): (r: Result<Frame, Error>)
    requires forall c :: c in cols ==> c in f.columns
    ensures r.Ok? <==> forall i, c :: 0 <= i < |f.rows| && c in cols ==> Recode(At(f.rows[i], c), mapping).Some?
    ensures r.Err? ==> r.error.NotFloat? && r.error.column in cols
    ensures r.Ok? ==> r.value.columns == f.columns && |r.value.rows| == |f.rows|
    ensures r.Ok? ==> forall i, c :: 0 <= i < |f.rows| && c in cols ==>
      At(r.value.rows[i], c) == Recode(At(f.rows[i], c), mapping).value
    ensures r.Ok? ==> forall i, d :: 0 <= i < |f.rows| && d !in cols ==> At(r.value.rows[i], d) == At(f.rows[i], d)
    decreases |cols|
  {
    if cols == [] then Ok(f)
    else
      var c := cols[0];
      var g := TryAssign(f, c, row => Recode(At(row, c), mapping), NotFloat(c));
      if g.Err? then
        assert c in cols;
        Err(NotFloat(c))
      else
        var r := RecodeColumns(g.value, cols[1..], mapping);
        RecodeFirstFacts(f, g.value, c, mapping);
        RecodeColumnsStep(f, g.value, r, cols, mapping);
        r
  }

  /** `g` is `f` with the cells of `cols` recoded by `mapping`, every one of them castable, and nothing else changed. */
  ghost predicate Recoded(f: Frame, cols: seq<string>, mapping: map<string, string>, g: Frame) {
    && g.columns == f.columns && |g.rows| == |f.rows|
    && (forall i, c :: 0 <= i < |f.rows| && c in cols ==>
          Recode(At(f.rows[i], c), mapping).Some? && At(g.rows[i], c) == Recode(At(f.rows[i], c), mapping).value)
    && (forall i, d :: 0 <= i < |f.rows| && d !in cols ==> At(g.rows[i], d) == At(f.rows[i], d))
  }

  /** [Recoded] for a single column `c`. */
  ghost predicate RecodedCol(f: Frame, c: string, mapping: map<string, string>, g: Frame) {
    && g.columns == f.columns && |g.rows| == |f.rows|
    && (forall i :: 0 <= i < |f.rows| ==>
          Recode(At(f.rows[i], c), mapping).Some? && At(g.rows[i], c) == Recode(At(f.rows[i], c), mapping).value)
    && (forall i, d :: 0 <= i < |f.rows| && d != c ==> At(g.rows[i], d) == At(f.rows[i], d))
  }

  /** A successful [ReplaceCategoricalValues] is [Recoded]. */
  lemma RecodedFacts(f: Frame, cols: seq<string>, mapping: map<string, string>, r: Result<Frame, Error>)
    requires r == ReplaceCategoricalValues(f, cols, mapping)
    ensures r.Ok? ==> Recoded(f, cols, mapping, r.value)
  {
  }

  /** [ReplaceCategoricalValues] on a single present column, as plain facts about each row. */
  lemma RecodeOne(f: Frame, c: string, mapping: map<string, string>, r: Result<Frame, Error>)
    requires c in f.columns && r == ReplaceCategoricalValues(f, [c], mapping)
    ensures r.Ok? <==> forall i :: 0 <= i < |f.rows| ==> Recode(At(f.rows[i], c), mapping).Some?
    ensures r.Err? ==> r.error.NotFloat?
    ensures r.Ok? ==> RecodedCol(f, c, mapping, r.value)
  {
    assert forall d :: d in [c] ==> d in f.columns;
    if r.Ok? {
      forall i | 0 <= i < |f.rows|
        ensures Recode(At(f.rows[i], c), mapping).Some? && At(r.value.rows[i], c) == Recode(At(f.rows[i], c), mapping).value
      {
        assert c in [c];
      }
      forall i, d | 0 <= i < |f.rows| && d != c ensures At(r.value.rows[i], d) == At(f.rows[i], d) {
        assert d !in [c];
      }
    }
    if forall i :: 0 <= i < |f.rows| ==> Recode(At(f.rows[i], c), mapping).Some? {
      forall i, d | 0 <= i < |f.rows| && d in [c] ensures Recode(At(f.rows[i], d), mapping).Some? {
        assert d == c;
      }
    }
  }

  /** The cast of the first column, as plain facts about each row. */
  lemma RecodeFirstFacts(f: Frame, g: Frame, c0: string, mapping: map<string, string>)
    requires c0 in f.columns
    requires TryAssign(f, c0, row => Recode(At(row, c0), mapping), NotFloat(c0)) == Ok(g)
    ensures g.columns == f.columns && |g.rows| == |f.rows|
    ensures forall i :: 0 <= i < |f.rows| ==>
      Recode(At(f.rows[i], c0), mapping).Some? && At(g.rows[i], c0) == Recode(At(f.rows[i], c0), mapping).value
    ensures forall i, d :: 0 <= i < |f.rows| && d != c0 ==> At(g.rows[i], d) == At(f.rows[i], d)
  {
  }

  lemma RecodeColumnsStep(f: Frame, g: Frame, r: Result<Frame, Error>, cols: seq<string>, mapping: map<string, string>)
    requires cols != [] && forall c :: c in cols ==> c in f.columns
    requires g.columns == f.columns && |g.rows| == |f.rows|
    requires forall i :: 0 <= i < |f.rows| ==>
      Recode(At(f.rows[i], cols[0]), mapping).Some? && At(g.rows[i], cols[0]) == Recode(At(f.rows[i], cols[0]), mapping).value
    requires forall i, d :: 0 <= i < |f.rows| && d != cols[0] ==> At(g.rows[i], d) == At(f.rows[i], d)
    requires r.Ok? <==> forall i, c :: 0 <= i < |g.rows| && c in cols[1..] ==> Recode(At(g.rows[i], c), mapping).Some?
    requires r.Err? ==> r.error.NotFloat? && r.error.column in cols[1..]
    requires r.Ok? ==> r.value.columns == g.columns && |r.value.rows| == |g.rows|
    requires r.Ok? ==> forall i, c :: 0 <= i < |g.rows| && c in cols[1..] ==>
      At(r.value.rows[i], c) == Recode(At(g.rows[i], c), mapping).value
    requires r.Ok? ==> forall i, d :: 0 <= i < |g.rows| && d !in cols[1..] ==> At(r.value.rows[i], d) == At(g.rows[i], d)
    ensures r.Ok? <==> forall i, c :: 0 <= i < |f.rows| && c in cols ==> Recode(At(f.rows[i], c), mapping).Some?
    ensures r.Err? ==> r.error.NotFloat? && r.error.column in cols
    ensures r.Ok? ==> r.value.columns == f.columns && |r.value.rows| == |f.rows|
    ensures r.Ok? ==> forall i, c :: 0 <= i < |f.rows| && c in cols ==>
      At(r.value.rows[i], c) == Recode(At(f.rows[i], c), mapping).value
    ensures r.Ok? ==> forall i, d :: 0 <= i < |f.rows| && d !in cols ==> At(r.value.rows[i], d) == At(f.rows[i], d)
  {
    var c0 := cols[0];
    forall i, c | 0 <= i < |f.rows| && c in cols
      ensures Recode(At(g.rows[i], c), mapping) == Recode(At(f.rows[i], c), mapping)
    {
      if c == c0 {
        RecodeIdempotent(At(f.rows[i], c), mapping);
      }
    }
    assert forall c :: c in cols ==> c == c0 || c in cols[1..];
    assert forall c :: c in cols[1..] ==> c in cols;
    assert (forall i, c :: 0 <= i < |g.rows| && c in cols[1..] ==> Recode(At(g.rows[i], c), mapping).Some?)
       ==> forall i, c :: 0 <= i < |f.rows| && c in cols ==> Recode(At(f.rows[i], c), mapping).Some?;
    if r.Ok? {
      forall i, c | 0 <= i < |f.rows| && c in cols
        ensures At(r.value.rows[i], c) == Recode(At(f.rows[i], c), mapping).value
      {
        if c !in cols[1..] {
          assert c == c0;
        }
      }
    }
  }

  /**
   * replace_categorical_values: in each of `columns`, replace the labels that
   * are keys of `mapping` by their values and cast to float. Selecting the
   * columns raises a KeyError for a missing one; the cast raises for text that
   * is not a number after the replacement. Other columns are untouched.
   */
  function ReplaceCategoricalValues(f: Frame, columns: seq<string>, mapping: map<string, string>): (r: Result<Frame, Error>)
    ensures r.Ok? <==> ((forall c :: c in columns ==> c in f.columns)
                        && forall i, c :: 0 <= i < |f.rows| && c in columns ==> Recode(At(f.rows[i], c), mapping).Some?)
    ensures r.Err? ==> ((r.error.MissingColumn? && r.error.name in columns && r.error.name !in f.columns)
                        || (r.error.NotFloat? && r.error.column in columns))
    ensures (exists c :: c in columns && c !in f.columns) ==> r.Err? && r.error.MissingColumn?
    ensures r.Ok? ==> r.value.columns == f.columns && |r.value.rows| == |f.rows|
    ensures r.Ok? ==> forall i, c :: 0 <= i < |f.rows| && c in columns ==>
      At(r.value.rows[i], c) == Recode(At(f.rows[i], c), mapping).value
    ensures r.Ok? ==> forall i, d :: 0 <= i < |f.rows| && d !in columns ==> At(r.value.rows[i], d) == At(f.rows[i], d)
  {
    match FirstMissing(columns, f.columns)
    case Some(c) => Err(MissingColumn(c))
    case None => RecodeColumns(f, columns, mapping)
  }

  /** mapping1: the loneliness items, "very often" (code 1) to "never" (code 5), scored 5 down to 1. */
  const Mapping1: map<string, string> := map[
    "[1] Sehr oft" := "5",
    "[2] Oft" := "4",
    "[3] Manchmal" := "3",
    "[4] Selten" := "2",
    "[5] Nie" := "1"
  ]

  /** mapping2: self-rated health, "very good" (code 1) to "bad" (code 5), scored 1 up to 5. */
  const Mapping2: map<string, string> := map[
    "[1] Sehr gut" := "1",
    "[2] Gut" := "2",
    "[3] Zufriedenstellend" := "3",
    "[4] Weniger gut" := "4",
    "[5] Schlecht" := "5"
  ]

  /** The answer labels of the loneliness items and of the health item, in the order of their codes. */
  const LonelinessLabels: seq<string> := ["[1] Sehr oft", "[2] Oft", "[3] Manchmal", "[4] Selten", "[5] Nie"]
  const HealthLabels: seq<string> := ["[1] Sehr gut", "[2] Gut", "[3] Zufriedenstellend", "[4] Weniger gut", "[5] Schlecht"]

  /** mapping1 scores exactly the five loneliness answers. */
  lemma Mapping1Keys()
    ensures Mapping1.Keys == set l | l in LonelinessLabels
  {
  }

  /** mapping2 scores exactly the five health answers. */
  lemma Mapping2Keys()
    ensures Mapping2.Keys == set l | l in HealthLabels
  {
  }

  /** The answer with code k+1 to a loneliness item is scored 5-k: the scale is reversed, so more often means higher. */
  lemma LonelinessScore(k: int)
    requires 0 <= k < |LonelinessLabels|
    ensures Recode(DropSentinel(Some(Str(LonelinessLabels[k]))), Mapping1) == Some(Some(Num((5 - k) as real)))
  {
    PositiveLabelIsAnswer(LonelinessLabels[k]);
    assert Mapping1[LonelinessLabels[k]] == ShowInt(5 - k);
    ParseShowInt(5 - k);
  }

  /** The answer with code k+1 to the health item is scored k+1: the scale keeps its order, so worse health means higher. */
  lemma HealthScore(k: int)
    requires 0 <= k < |HealthLabels|
    ensures Recode(DropSentinel(Some(Str(HealthLabels[k]))), Mapping2) == Some(Some(Num((k + 1) as real)))
  {
    PositiveLabelIsAnswer(HealthLabels[k]);
    assert Mapping2[HealthLabels[k]] == ShowInt(k + 1);
    ParseShowInt(k + 1);
  }

  // ---------------------------------------------------------------------------
  // The row mean: df[cols].mean(axis=1)
  // ---------------------------------------------------------------------------

  /** The numbers among `cells`, in order; missing cells are skipped. */
  function Present(cells: seq<Cell>): (xs: seq<real>)
    ensures |xs| <= |cells|
    ensures forall x :: x in xs ==> Some(Num(x)) in cells
    ensures forall i :: 0 <= i < |cells| && cells[i].Some? && cells[i].value.Num? ==> cells[i].value.x in xs
    ensures xs == [] <==> forall i :: 0 <= i < |cells| ==> !(cells[i].Some? && cells[i].value.Num?)
  {
    if cells == [] then []
    else
      var rest := Present(cells[1..]);
      assert forall x :: Some(Num(x)) in cells[1..] ==> Some(Num(x)) in cells;
      assert forall i :: 1 <= i < |cells| ==> cells[i] == cells[1..][i - 1];
      if cells[0].Some? && cells[0].value.Num? then [cells[0].value.x] + rest else rest
  }

  function Sum(xs: seq<real>): real {
    if xs == [] then 0.0 else xs[0] + Sum(xs[1..])
  }

  /** `mean(axis=1)` over one row's cells: the mean of the numbers present, missing if there are none. */
  function RowMean(cells: seq<Cell>): (r: Cell)
    ensures r.None? <==> forall i :: 0 <= i < |cells| ==> !(cells[i].Some? && cells[i].value.Num?)
    ensures r.Some? ==> r.value.Num?
  {
    var xs := Present(cells);
    if xs == [] then None else Some(Num(Sum(xs) / (|xs| as real)))
  }

  lemma {:induction false} SumBounds(xs: seq<real>, lo: real, hi: real)
    requires forall x :: x in xs ==> lo <= x <= hi
    ensures (|xs| as real) * lo <= Sum(xs) <= (|xs| as real) * hi
  {
    if xs != [] {
      assert forall x :: x in xs[1..] ==> x in xs;
      SumBounds(xs[1..], lo, hi);
      assert xs[0] in xs;
      SumStep(|xs[1..]| as real, Sum(xs[1..]), xs[0], lo, hi);
    }
  }

  /** One more value between lo and hi widens both bounds of a sum by one multiple. */
  lemma SumStep(n: real, t: real, x: real, lo: real, hi: real)
    requires n * lo <= t <= n * hi && lo <= x <= hi
    ensures (n + 1.0) * lo <= x + t <= (n + 1.0) * hi
  {
    assert (n + 1.0) * lo == n * lo + lo;
    assert (n + 1.0) * hi == n * hi + hi;
  }

  /** When every number of the row lies in [lo, hi], so does its mean. */
  lemma MeanBounds(cells: seq<Cell>, lo: real, hi: real)
    requires forall i :: 0 <= i < |cells| && cells[i].Some? && cells[i].value.Num? ==> lo <= cells[i].value.x <= hi
    ensures RowMean(cells).Some? ==> lo <= RowMean(cells).value.x <= hi
  {
    var xs := Present(cells);
    if xs != [] {
      forall x | x in xs ensures lo <= x <= hi {
        var i :| 0 <= i < |cells| && cells[i] == Some(Num(x));
      }
      SumBounds(xs, lo, hi);
      QuotientBounds(Sum(xs), |xs| as real, lo, hi);
    }
  }

  lemma QuotientBounds(s: real, n: real, lo: real, hi: real)
    requires n > 0.0 && n * lo <= s <= n * hi
    ensures lo <= s / n <= hi
  {
    assert (s / n) * n == s;
  }

  /** The mean skips a missing answer: two answers scored 4 and 5 average 4.5. */
  lemma RowMeanSkipsMissing()
    ensures RowMean([None, Some(Num(4.0)), Some(Num(5.0))]) == Some(Num(4.5))
  {
    assert Present([None, Some(Num(4.0)), Some(Num(5.0))]) == [4.0, 5.0];
  }

  // ---------------------------------------------------------------------------
  // pl_functions
  // ---------------------------------------------------------------------------

  /** The pl columns that pl_functions selects first. */
  const PlInputs: seq<string> := ["pid", "ple0008", "plj0587", "plj0588", "plj0589", "syear", "hid"]

  /** The same columns after pl_subfunction's renaming. */
  const PlItemColumns: seq<string> := ["pid", "health", "Company_missing", "Feeling_left_out", "socially_isolated", "syear", "hid"]

  /** The three loneliness items that are averaged. */
  const LonelinessItems: seq<string> := ["Company_missing", "Feeling_left_out", "socially_isolated"]

  /** The columns pl_functions returns. */
  const PlColumns: seq<string> := ["pid", "hid", "aggregate_loneliness_2013", "aggregate_loneliness_2017", "health_2013"]

  /** Row `o` after pl_subfunction carries the key and year of input row `r` and its four items with non-responses dropped. */
  predicate PlItemsOf(o: Row, r: Row) {
    && At(o, "pid") == At(r, "pid") && At(o, "hid") == At(r, "hid") && At(o, "syear") == At(r, "syear")
    && At(o, "health") == DropSentinel(At(r, "ple0008"))
    && At(o, "Company_missing") == DropSentinel(At(r, "plj0587"))
    && At(o, "Feeling_left_out") == DropSentinel(At(r, "plj0588"))
    && At(o, "socially_isolated") == DropSentinel(At(r, "plj0589"))
  }

  /** pl_functions, lines 221-223: select the pl columns, then pl_subfunction. */
  function PlItems(df: Frame): (r: Result<Frame, Error>)
    ensures r.Ok? <==> forall c :: c in PlInputs ==> c in df.columns
    ensures r.Err? ==> r.error.MissingColumn? && r.error.name in PlInputs
    ensures r.Ok? ==> r.value.columns == PlItemColumns && |r.value.rows| == |df.rows|
    ensures r.Ok? ==> forall i :: 0 <= i < |df.rows| ==> PlItemsOf(r.value.rows[i], df.rows[i])
  {
    var picked :- Select(df, PlInputs);
    var items := PlSubfunction(picked);
    PlInputsRenamed(picked);
    if items.Ok? then PlItemsFacts(df, picked, items.value); items else items
  }

  /** The selected pl columns have every item under its code, and renaming them gives the item names. */
  lemma PlInputsRenamed(picked: Frame)
    requires picked.columns == PlInputs
    ensures forall k :: 0 <= k < |PlTargets| ==> PlSources[k] in picked.columns && PlSourceOf(picked.columns, k) == PlSources[k]
    ensures seq(|PlInputs|, i requires 0 <= i < |PlInputs| => RenamedName(PlSources, PlTargets, PlInputs[i])) == PlItemColumns
  {
    assert PlSources == [PlInputs[1], PlInputs[2], PlInputs[3], PlInputs[4]];
  }

  lemma PlItemsFacts(df: Frame, picked: Frame, items: Frame)
    requires picked.columns == PlInputs && |picked.rows| == |df.rows|
    requires forall i, c :: 0 <= i < |df.rows| && c in PlInputs ==> At(picked.rows[i], c) == At(df.rows[i], c)
    requires forall k :: 0 <= k < |PlTargets| ==> PlSourceOf(picked.columns, k) == PlSources[k]
    requires seq(|PlInputs|, i requires 0 <= i < |PlInputs| => RenamedName(PlSources, PlTargets, PlInputs[i])) == PlItemColumns
    requires |items.columns| == |picked.columns| && |items.rows| == |picked.rows|
    requires forall i :: 0 <= i < |picked.columns| ==> items.columns[i] == RenamedName(PlSources, PlTargets, picked.columns[i])
    requires forall i, k :: 0 <= i < |picked.rows| && 0 <= k < |PlTargets| ==>
      At(items.rows[i], PlTargets[k]) == DropSentinel(At(picked.rows[i], PlSourceOf(picked.columns, k)))
    requires forall i, d :: 0 <= i < |picked.rows| && d !in PlSources && d !in PlTargets ==>
      At(items.rows[i], d) == At(picked.rows[i], d)
    ensures items.columns == PlItemColumns && |items.rows| == |df.rows|
    ensures forall i :: 0 <= i < |df.rows| ==> PlItemsOf(items.rows[i], df.rows[i])
  {
    assert items.columns == PlItemColumns by {
      forall i | 0 <= i < |PlInputs| ensures items.columns[i] == PlItemColumns[i] {
        assert items.columns[i] == RenamedName(PlSources, PlTargets, PlInputs[i]);
      }
    }
    forall i | 0 <= i < |df.rows| ensures PlItemsOf(items.rows[i], df.rows[i]) {
      PlItemsRow(df.rows[i], picked.rows[i], items.rows[i]);
    }
  }

  lemma PlItemsRow(r: Row, p: Row, o: Row)
    requires forall c :: c in PlInputs ==> At(p, c) == At(r, c)
    requires forall k :: 0 <= k < |PlTargets| ==> At(o, PlTargets[k]) == DropSentinel(At(p, PlSources[k]))
    requires forall d :: d !in PlSources && d !in PlTargets ==> At(o, d) == At(p, d)
    ensures PlItemsOf(o, r)
  {
    assert At(o, PlTargets[0]) == DropSentinel(At(p, PlSources[0]));
    assert At(o, PlTargets[1]) == DropSentinel(At(p, PlSources[1]));
    assert At(o, PlTargets[2]) == DropSentinel(At(p, PlSources[2]));
    assert At(o, PlTargets[3]) == DropSentinel(At(p, PlSources[3]));
    assert "pid" !in PlSources && "pid" !in PlTargets && "hid" !in PlSources && "hid" !in PlTargets;
    assert "syear" !in PlSources && "syear" !in PlTargets;
  }

  /** The columns after the scores and the aggregate are added (pl_functions, lines 224-227). */
  const PlScoredColumns: seq<string> := PlItemColumns + ["aggregate_loneliness"]

  /** `df[cols].mean(axis=1)` for the three loneliness items of one row. */
  function Loneliness(row: Row): Cell {
    RowMean([At(row, "Company_missing"), At(row, "Feeling_left_out"), At(row, "socially_isolated")])
  }

  /** `df["aggregate_loneliness"] = df[cols].mean(axis=1)` (pl_functions, line 227). */
  function WithLoneliness(f: Frame): (r: Frame)
    ensures r.columns == AddColumn(f.columns, "aggregate_loneliness") && |r.rows| == |f.rows|
    ensures forall i :: 0 <= i < |f.rows| ==> At(r.rows[i], "aggregate_loneliness") == Loneliness(f.rows[i])
    ensures forall i, d :: 0 <= i < |f.rows| && d != "aggregate_loneliness" ==> At(r.rows[i], d) == At(f.rows[i], d)
  {
    Assign(f, "aggregate_loneliness", Loneliness)
  }

  /** Every item of a pl_subfunction row can be cast to float after its mapping is applied. */
  predicate ItemsScorable(o: Row) {
    && Recode(At(o, "Company_missing"), Mapping1).Some?
    && Recode(At(o, "Feeling_left_out"), Mapping1).Some?
    && Recode(At(o, "socially_isolated"), Mapping1).Some?
    && Recode(At(o, "health"), Mapping2).Some?
  }

  /** Row `o` is pl_subfunction row `it` scored: health by mapping2 and the mean of the mapping1 scores. */
  predicate ScoredOf(o: Row, it: Row) {
    && ItemsScorable(it)
    && At(o, "pid") == At(it, "pid") && At(o, "hid") == At(it, "hid") && At(o, "syear") == At(it, "syear")
    && At(o, "health") == Recode(At(it, "health"), Mapping2).value
    && At(o, "aggregate_loneliness") == RowMean([Recode(At(it, "Company_missing"), Mapping1).value,
                                                 Recode(At(it, "Feeling_left_out"), Mapping1).value,
                                                 Recode(At(it, "socially_isolated"), Mapping1).value])
  }

  /**
   * pl_functions, lines 224-227: score the items by mapping1 and mapping2
   * and add their mean. The cast raises as soon as one item cannot be scored.
   */
  function PlRecoded(items: Frame): (r: Result<Frame, Error>)
    requires items.columns == PlItemColumns
    ensures r.Ok? <==> forall i :: 0 <= i < |items.rows| ==> ItemsScorable(items.rows[i])
    ensures r.Err? ==> r.error.NotFloat?
    ensures r.Ok? ==> r.value.columns == PlScoredColumns && |r.value.rows| == |items.rows|
    ensures r.Ok? ==> forall i :: 0 <= i < |items.rows| ==> ScoredOf(r.value.rows[i], items.rows[i])
  {
    assert forall c :: c in LonelinessItems ==> c in items.columns;
    var lonely := ReplaceCategoricalValues(items, LonelinessItems, Mapping1);
    if lonely.Err? then
      LonelyScorable(items);
      Err(lonely.error)
    else
      RecodedFacts(items, LonelinessItems, Mapping1, lonely);
      PlScoredFrom(items, lonely.value)
  }

  /** The rest of [PlRecoded] once the loneliness items are scored: score health and add the mean. */
  function PlScoredFrom(items: Frame, lonely: Frame): (r: Result<Frame, Error>)
    requires items.columns == PlItemColumns
    requires Recoded(items, LonelinessItems, Mapping1, lonely)
    ensures r.Ok? <==> forall i :: 0 <= i < |items.rows| ==> ItemsScorable(items.rows[i])
    ensures r.Err? ==> r.error.NotFloat?
    ensures r.Ok? ==> r.value.columns == PlScoredColumns && |r.value.rows| == |items.rows|
    ensures r.Ok? ==> forall i :: 0 <= i < |items.rows| ==> ScoredOf(r.value.rows[i], items.rows[i])
  {
    assert lonely.columns == PlItemColumns && PlItemColumns[1] == "health";
    var scored := ReplaceCategoricalValues(lonely, ["health"], Mapping2);
    RecodeOne(lonely, "health", Mapping2, scored);
    HealthScorable(items, lonely);
    if scored.Err? then Err(scored.error)
    else
      var out := WithLoneliness(scored.value);
      PlRecodedFacts(items, lonely, scored.value, out);
      Ok(out)
  }

  /** A row that can be scored has scorable loneliness items, so a failing first recode fails [PlRecoded]. */
  lemma LonelyScorable(items: Frame)
    ensures (forall i :: 0 <= i < |items.rows| ==> ItemsScorable(items.rows[i])) ==>
      forall i, c :: 0 <= i < |items.rows| && c in LonelinessItems ==> Recode(At(items.rows[i], c), Mapping1).Some?
  {
    if forall i :: 0 <= i < |items.rows| ==> ItemsScorable(items.rows[i]) {
      forall i, c | 0 <= i < |items.rows| && c in LonelinessItems ensures Recode(At(items.rows[i], c), Mapping1).Some? {
        assert ItemsScorable(items.rows[i]);
      }
    }
  }

  /** Once the loneliness items are scored, every row can be scored exactly when every health answer can. */
  lemma HealthScorable(items: Frame, lonely: Frame)
    requires Recoded(items, LonelinessItems, Mapping1, lonely)
    ensures (forall i :: 0 <= i < |lonely.rows| ==> Recode(At(lonely.rows[i], "health"), Mapping2).Some?)
        <==> forall i :: 0 <= i < |items.rows| ==> ItemsScorable(items.rows[i])
  {
    forall i | 0 <= i < |items.rows|
      ensures Recode(At(lonely.rows[i], "health"), Mapping2).Some? <==> ItemsScorable(items.rows[i])
    {
      ItemsScorableRow(items, lonely, i);
    }
  }

  /** One row of [HealthScorable]: the first recode leaves health untouched and scores the other three items. */
  lemma ItemsScorableRow(items: Frame, lonely: Frame, i: int)
    requires Recoded(items, LonelinessItems, Mapping1, lonely)
    requires 0 <= i < |items.rows|
    ensures ItemsScorable(items.rows[i]) <==> Recode(At(lonely.rows[i], "health"), Mapping2).Some?
  {
    var it, l := items.rows[i], lonely.rows[i];
    assert At(l, "health") == At(it, "health") by { assert "health" !in LonelinessItems; }
    assert Recode(At(it, "Company_missing"), Mapping1).Some? by { assert "Company_missing" in LonelinessItems; }
    assert Recode(At(it, "Feeling_left_out"), Mapping1).Some? by { assert "Feeling_left_out" in LonelinessItems; }
    assert Recode(At(it, "socially_isolated"), Mapping1).Some? by { assert "socially_isolated" in LonelinessItems; }
  }

  lemma PlRecodedFacts(items: Frame, lonely: Frame, scored: Frame, out: Frame)
    requires Recoded(items, LonelinessItems, Mapping1, lonely)
    requires RecodedCol(lonely, "health", Mapping2, scored)
    requires out == WithLoneliness(scored) && items.columns == PlItemColumns
    ensures out.columns == PlScoredColumns && |out.rows| == |items.rows|
    ensures forall i :: 0 <= i < |items.rows| ==> ScoredOf(out.rows[i], items.rows[i])
  {
    assert "aggregate_loneliness" !in PlItemColumns;
    forall i | 0 <= i < |items.rows| ensures ScoredOf(out.rows[i], items.rows[i]) {
      PlRecodedRow(items.rows[i], lonely.rows[i], scored.rows[i], out.rows[i]);
    }
  }

  /** One row of [PlRecodedFacts]. */
  lemma PlRecodedRow(it: Row, l: Row, sc: Row, o: Row)
    requires forall c :: c in LonelinessItems ==> Recode(At(it, c), Mapping1).Some? && At(l, c) == Recode(At(it, c), Mapping1).value
    requires forall d :: d !in LonelinessItems ==> At(l, d) == At(it, d)
    requires Recode(At(l, "health"), Mapping2).Some? && At(sc, "health") == Recode(At(l, "health"), Mapping2).value
    requires forall d :: d != "health" ==> At(sc, d) == At(l, d)
    requires At(o, "aggregate_loneliness") == Loneliness(sc)
    requires forall d :: d != "aggregate_loneliness" ==> At(o, d) == At(sc, d)
    ensures ScoredOf(o, it)
  {
    var cm := Recode(At(it, "Company_missing"), Mapping1);
    var fl := Recode(At(it, "Feeling_left_out"), Mapping1);
    var si := Recode(At(it, "socially_isolated"), Mapping1);
    assert cm.Some? && At(l, "Company_missing") == cm.value by { assert "Company_missing" in LonelinessItems; }
    assert fl.Some? && At(l, "Feeling_left_out") == fl.value by { assert "Feeling_left_out" in LonelinessItems; }
    assert si.Some? && At(l, "socially_isolated") == si.value by { assert "socially_isolated" in LonelinessItems; }
    assert [At(sc, "Company_missing"), At(sc, "Feeling_left_out"), At(sc, "socially_isolated")] == [cm.value, fl.value, si.value];
    assert At(l, "health") == At(it, "health") by { assert "health" !in LonelinessItems; }
    assert "pid" !in LonelinessItems && "hid" !in LonelinessItems && "syear" !in LonelinessItems;
  }

  /** An input item scored: non-responses dropped, then `replace(mapping)` and the cast to float. */
  function ItemScore(r: Row, code: string, mapping: map<string, string>): Option<Cell> {
    Recode(DropSentinel(At(r, code)), mapping)
  }

  /** Every item of input row `r` survives the casts of pl_functions. */
  predicate PlScorable(r: Row) {
    && ItemScore(r, "plj0587", Mapping1).Some?
    && ItemScore(r, "plj0588", Mapping1).Some?
    && ItemScore(r, "plj0589", Mapping1).Some?
    && ItemScore(r, "ple0008", Mapping2).Some?
  }

  /** The aggregate loneliness of input row `r`: the mean of its three scored loneliness items. */
  function RawLoneliness(r: Row): Cell
    requires PlScorable(r)
  {
    RowMean([ItemScore(r, "plj0587", Mapping1).value, ItemScore(r, "plj0588", Mapping1).value, ItemScore(r, "plj0589", Mapping1).value])
  }

  /** The scored health of input row `r`. */
  function RawHealth(r: Row): Cell
    requires PlScorable(r)
  {
    ItemScore(r, "ple0008", Mapping2).value
  }

  /** Row `o` holds the key, the year, the health score and the aggregate loneliness of input row `r`. */
  predicate PlScoredOf(o: Row, r: Row) {
    && PlScorable(r)
    && At(o, "pid") == At(r, "pid") && At(o, "hid") == At(r, "hid") && At(o, "syear") == At(r, "syear")
    && At(o, "health") == RawHealth(r)
    && At(o, "aggregate_loneliness") == RawLoneliness(r)
  }

  /** pl_functions, lines 221-227: one scored row per input row, or the first exception raised. */
  function PlScored(df: Frame): (r: Result<Frame, Error>)
    ensures r.Ok? <==> (forall c :: c in PlInputs ==> c in df.columns) && forall i :: 0 <= i < |df.rows| ==> PlScorable(df.rows[i])
    ensures r.Err? ==> (r.error.MissingColumn? && r.error.name in PlInputs) || r.error.NotFloat?
    ensures r.Ok? ==> r.value.columns == PlScoredColumns && |r.value.rows| == |df.rows|
    ensures r.Ok? ==> forall i :: 0 <= i < |df.rows| ==> PlScoredOf(r.value.rows[i], df.rows[i])
  {
    var items :- PlItems(df);
    var r := PlRecoded(items);
    PlScoredFacts(df, items, r.Ok?);
    if r.Ok? then PlScoredRows(df, items, r.value); r else r
  }

  lemma PlScoredFacts(df: Frame, items: Frame, ok: bool)
    requires |items.rows| == |df.rows|
    requires forall i :: 0 <= i < |df.rows| ==> PlItemsOf(items.rows[i], df.rows[i])
    requires ok <==> forall i :: 0 <= i < |items.rows| ==> ItemsScorable(items.rows[i])
    ensures ok <==> forall i :: 0 <= i < |df.rows| ==> PlScorable(df.rows[i])
  {
    forall i | 0 <= i < |df.rows| ensures ItemsScorable(items.rows[i]) <==> PlScorable(df.rows[i]) {
      PlScoredRow(items.rows[i], df.rows[i], items.rows[i]);
    }
  }

  /** One row of [PlScored]: scoring the renamed items is scoring the raw codes. */
  lemma PlScoredRow(it: Row, r: Row, o: Row)
    requires PlItemsOf(it, r)
    ensures ItemsScorable(it) <==> PlScorable(r)
    ensures ScoredOf(o, it) ==> PlScoredOf(o, r)
  {
  }

  lemma PlScoredRows(df: Frame, items: Frame, out: Frame)
    requires |items.rows| == |df.rows| && |out.rows| == |df.rows|
    requires forall i :: 0 <= i < |df.rows| ==> PlItemsOf(items.rows[i], df.rows[i])
    requires forall i :: 0 <= i < |items.rows| ==> ScoredOf(out.rows[i], items.rows[i])
    ensures forall i :: 0 <= i < |df.rows| ==> PlScoredOf(out.rows[i], df.rows[i])
  {
    forall i | 0 <= i < |df.rows| ensures PlScoredOf(out.rows[i], df.rows[i]) {
      PlScoredRow(items.rows[i], df.rows[i], out.rows[i]);
    }
  }

  /** The layout of the year-on-year merge of pl_functions (lines 230-234): both sides have the scored columns. */
  const PlShape: Shape := Shape(PlScoredColumns, PlScoredColumns, PersonKey, "_2013", "_2017")

  /** The merged column names: the key once, every other scored column with each year's suffix. */
  const PlMergedColumns: seq<string> := [
    "pid", "health_2013", "Company_missing_2013", "Feeling_left_out_2013", "socially_isolated_2013", "syear_2013", "hid",
    "aggregate_loneliness_2013",
    "health_2017", "Company_missing_2017", "Feeling_left_out_2017", "socially_isolated_2017", "syear_2017",
    "aggregate_loneliness_2017"]

  /** The non-key columns of the right side of the pl merge. */
  const PlRest: seq<string> := ["health", "Company_missing", "Feeling_left_out", "socially_isolated", "syear", "aggregate_loneliness"]

  lemma PlShapeRest()
    ensures PlShape.Rest() == PlRest
  {
    var on := PersonKey;
    var t7: seq<string> := ["aggregate_loneliness"];
    WithoutCons("aggregate_loneliness", [], on);
    WithoutCons("hid", t7, on);
    var t6 := ["hid"] + t7;
    WithoutCons("syear", t6, on);
    var t5 := ["syear"] + t6;
    WithoutCons("socially_isolated", t5, on);
    var t4 := ["socially_isolated"] + t5;
    WithoutCons("Feeling_left_out", t4, on);
    var t3 := ["Feeling_left_out"] + t4;
    WithoutCons("Company_missing", t3, on);
    var t2 := ["Company_missing"] + t3;
    WithoutCons("health", t2, on);
    var t1 := ["health"] + t2;
    WithoutCons("pid", t1, on);
    assert PlScoredColumns == ["pid"] + t1;
  }

  /** The merge of pl_functions cannot clash: its output names are all different. */
  lemma PlShapeColumns()
    ensures PlShape.Columns() == PlMergedColumns
    ensures Distinct(PlMergedColumns)
  {
    PlShapeRest();
    PlShapeLeftNames();
    PlShapeRightNames();
    var names := PlShape.Columns();
    assert |names| == |PlMergedColumns|;
    assert forall i :: 0 <= i < |PlScoredColumns| ==> names[i] == PlMergedColumns[i];
    assert forall i :: 0 <= i < |names| ==> names[i] == PlMergedColumns[i] by {
      forall i | 0 <= i < |names| ensures names[i] == PlMergedColumns[i] {
        if i >= |PlScoredColumns| {
          var j := i - |PlScoredColumns|;
          assert names[|PlScoredColumns| + j] == PlShape.RightName(PlRest[j]);
        }
      }
    }
    PlMergedDistinct();
  }

  lemma PlShapeLeftNames()
    ensures forall i :: 0 <= i < |PlScoredColumns| ==> PlShape.LeftName(PlScoredColumns[i]) == PlMergedColumns[i]
  {
    forall i | 0 <= i < |PlScoredColumns| ensures PlShape.LeftName(PlScoredColumns[i]) == PlMergedColumns[i] {
      assert PlScoredColumns[i] in PlScoredColumns;
    }
  }

  lemma PlShapeRightNames()
    ensures forall j :: 0 <= j < |PlRest| ==> PlShape.RightName(PlRest[j]) == PlMergedColumns[|PlScoredColumns| + j]
  {
    forall j | 0 <= j < |PlRest| ensures PlShape.RightName(PlRest[j]) == PlMergedColumns[|PlScoredColumns| + j] {
      assert PlRest[j] in PlScoredColumns by { assert PlScoredColumns[1..6] == PlRest[..5] && PlScoredColumns[7] == PlRest[5]; }
    }
  }

  lemma PlMergedDistinct()
    ensures Distinct(PlMergedColumns)
  {
  }

  /** The scored pl rows of one survey year (pl_functions, lines 228-229). */
  function PlYear(df: Frame, year: int): (r: Frame)
    requires PlScored(df).Ok?
    ensures r.columns == PlScoredColumns
  {
    FilterByYear(PlScored(df).value, year).value
  }

  /** The 2013 rows inner-joined to the 2017 rows on (pid, hid) with the year suffixes (lines 230-234). */
  function PlMerged(df: Frame): (r: Frame)
    requires PlScored(df).Ok?
    ensures r.columns == PlMergedColumns
    ensures r.rows == MergeRows(PlShape, Inner, PlYear(df, 2013).rows, PlYear(df, 2017).rows)
  {
    var start := PlYear(df, 2013);
    var end := PlYear(df, 2017);
    PlShapeColumns();
    assert MergeShape(start, end, PersonKey, "_2013", "_2017") == PlShape;
    MergeRowsOf(start, end, PersonKey, Inner, "_2013", "_2017");
    Merge(start, end, PersonKey, Inner, "_2013", "_2017").value
  }

  /**
   * pl_functions: per person and household present in both 2013 and 2017,
   * the aggregate loneliness of both years and the health of 2013.
   */
  function PlFunctions(df: Frame): (r: Result<Frame, Error>)
    ensures r.Ok? <==> (forall c :: c in PlInputs ==> c in df.columns) && forall i :: 0 <= i < |df.rows| ==> PlScorable(df.rows[i])
    ensures r.Err? ==> (r.error.MissingColumn? && r.error.name in PlInputs) || r.error.NotFloat?
    ensures r.Ok? ==> r.value.columns == PlColumns
  {
    var scored :- PlScored(df);
    var merged := PlMerged(df);
    assert forall c :: c in PlColumns ==> c in merged.columns;
    Select(merged, PlColumns)
  }

  /**
   * Output row `o` pairs the 2013 answers `a` and the 2017 answers `b` of the
   * same person in the same household: their key, both loneliness
   * aggregates and the 2013 health score.
   */
  predicate PlPair(o: Row, a: Row, b: Row) {
    && PlScorable(a) && PlScorable(b)
    && HasYear(a, 2013) && HasYear(b, 2017)
    && At(a, "pid") == At(b, "pid") && At(a, "hid") == At(b, "hid")
    && At(o, "pid") == At(a, "pid") && At(o, "hid") == At(a, "hid")
    && At(o, "aggregate_loneliness_2013") == RawLoneliness(a)
    && At(o, "aggregate_loneliness_2017") == RawLoneliness(b)
    && At(o, "health_2013") == RawHealth(a)
  }

  /** The names of the pl merge that pl_functions reads back. */
  lemma PlShapeFacts()
    ensures Distinct(PlShape.Columns()) && PlShape.on == PersonKey
    ensures "pid" in PlShape.left && "hid" in PlShape.left
    ensures "aggregate_loneliness" in PlShape.left && "health" in PlShape.left
    ensures "aggregate_loneliness" in PlShape.right && "aggregate_loneliness" !in PlShape.on
    ensures PlShape.LeftName("aggregate_loneliness") == "aggregate_loneliness_2013"
    ensures PlShape.LeftName("health") == "health_2013"
    ensures PlShape.RightName("aggregate_loneliness") == "aggregate_loneliness_2017"
  {
    PlShapeColumns();
    SuffixedNames();
    assert "aggregate_loneliness" == PlScoredColumns[7] && "health" == PlScoredColumns[1];
    assert "pid" == PlScoredColumns[0] && "hid" == PlScoredColumns[6];
  }

  /** A joined pl row, projected to the output columns, pairs the two input rows it was joined from. */
  lemma PlJoinedPair(s: Shape, a: Row, b: Row, sa: Row, sb: Row, l: Row, e: Row, o: Row)
    requires Distinct(s.Columns()) && s.on == PersonKey
    requires "pid" in s.left && "hid" in s.left && "aggregate_loneliness" in s.left && "health" in s.left
    requires "aggregate_loneliness" in s.right && "aggregate_loneliness" !in s.on
    requires s.LeftName("aggregate_loneliness") == "aggregate_loneliness_2013" && s.LeftName("health") == "health_2013"
    requires s.RightName("aggregate_loneliness") == "aggregate_loneliness_2017"
    requires PlScoredOf(sa, a) && PlScoredOf(sb, b) && HasYear(sa, 2013) && HasYear(sb, 2017)
    requires l == sa["syear" := Some(Num(2013 as real))] && e == sb["syear" := Some(Num(2017 as real))]
    requires Matches(l, e, s.on)
    requires var m := JoinRow(s, l, e);
      && At(o, "pid") == At(m, "pid") && At(o, "hid") == At(m, "hid")
      && At(o, "aggregate_loneliness_2013") == At(m, "aggregate_loneliness_2013")
      && At(o, "aggregate_loneliness_2017") == At(m, "aggregate_loneliness_2017")
      && At(o, "health_2013") == At(m, "health_2013")
    ensures PlPair(o, a, b)
  {
    PlJoinedCells(s, l, e, o);
    PlPairOfCells(a, b, sa, sb, l, e, o);
  }

  /** The cells of a joined pl row that pl_functions keeps, read back from the two rows it joins. */
  lemma PlJoinedCells(s: Shape, l: Row, e: Row, o: Row)
    requires Distinct(s.Columns()) && s.on == PersonKey
    requires "pid" in s.left && "hid" in s.left && "aggregate_loneliness" in s.left && "health" in s.left
    requires "aggregate_loneliness" in s.right && "aggregate_loneliness" !in s.on
    requires s.LeftName("aggregate_loneliness") == "aggregate_loneliness_2013" && s.LeftName("health") == "health_2013"
    requires s.RightName("aggregate_loneliness") == "aggregate_loneliness_2017"
    requires Matches(l, e, s.on)
    requires var m := JoinRow(s, l, e);
      && At(o, "pid") == At(m, "pid") && At(o, "hid") == At(m, "hid")
      && At(o, "aggregate_loneliness_2013") == At(m, "aggregate_loneliness_2013")
      && At(o, "aggregate_loneliness_2017") == At(m, "aggregate_loneliness_2017")
      && At(o, "health_2013") == At(m, "health_2013")
    ensures At(o, "pid") == At(l, "pid") && At(o, "hid") == At(l, "hid")
    ensures At(l, "pid") == At(e, "pid") && At(l, "hid") == At(e, "hid")
    ensures At(o, "aggregate_loneliness_2013") == At(l, "aggregate_loneliness")
    ensures At(o, "aggregate_loneliness_2017") == At(e, "aggregate_loneliness")
    ensures At(o, "health_2013") == At(l, "health")
  {
    JoinRowLeft(s, l, e, "aggregate_loneliness");
    JoinRowLeft(s, l, e, "health");
    JoinRowRight(s, l, e, "aggregate_loneliness");
    assert "pid" in s.on && "hid" in s.on;
    JoinRowKey(s, l, e, "pid");
    JoinRowKey(s, l, e, "hid");
  }

  /** Cells read back from the year-tagged scored rows are the raw rows' scores and keys. */
  lemma PlPairOfCells(a: Row, b: Row, sa: Row, sb: Row, l: Row, e: Row, o: Row)
    requires PlScoredOf(sa, a) && PlScoredOf(sb, b) && HasYear(sa, 2013) && HasYear(sb, 2017)
    requires l == sa["syear" := Some(Num(2013 as real))] && e == sb["syear" := Some(Num(2017 as real))]
    requires At(o, "pid") == At(l, "pid") && At(o, "hid") == At(l, "hid")
    requires At(l, "pid") == At(e, "pid") && At(l, "hid") == At(e, "hid")
    requires At(o, "aggregate_loneliness_2013") == At(l, "aggregate_loneliness")
    requires At(o, "aggregate_loneliness_2017") == At(e, "aggregate_loneliness")
    requires At(o, "health_2013") == At(l, "health")
    ensures PlPair(o, a, b)
  {
  }

  /** Output row `o` is the projection of merged row `m` onto the returned columns. */
  lemma PlProjected(o: Row, m: Row)
    requires forall c :: c in PlColumns ==> At(o, c) == At(m, c)
    ensures At(o, "pid") == At(m, "pid") && At(o, "hid") == At(m, "hid")
    ensures At(o, "aggregate_loneliness_2013") == At(m, "aggregate_loneliness_2013")
    ensures At(o, "aggregate_loneliness_2017") == At(m, "aggregate_loneliness_2017")
    ensures At(o, "health_2013") == At(m, "health_2013")
  {
    assert PlColumns[0] == "pid" && PlColumns[1] == "hid";
    assert PlColumns[2] == "aggregate_loneliness_2013" && PlColumns[3] == "aggregate_loneliness_2017" && PlColumns[4] == "health_2013";
  }

  /** The stages of pl_functions on an input it accepts. */
  lemma PlStages(df: Frame)
    requires PlFunctions(df).Ok?
    ensures PlScored(df).Ok?
    ensures var scored := PlScored(df).value;
      && |scored.rows| == |df.rows|
      && (forall i :: 0 <= i < |df.rows| ==> PlScoredOf(scored.rows[i], df.rows[i]))
      && (forall x :: x in PlYear(df, 2013).rows <==>
            exists i :: 0 <= i < |scored.rows| && HasYear(scored.rows[i], 2013) && x == scored.rows[i]["syear" := Some(Num(2013 as real))])
      && (forall x :: x in PlYear(df, 2017).rows <==>
            exists i :: 0 <= i < |scored.rows| && HasYear(scored.rows[i], 2017) && x == scored.rows[i]["syear" := Some(Num(2017 as real))])
    ensures var merged := PlMerged(df);
      var out := PlFunctions(df).value;
      && merged.rows == MergeRows(PlShape, Inner, PlYear(df, 2013).rows, PlYear(df, 2017).rows)
      && |out.rows| == |merged.rows|
      && forall k, c :: 0 <= k < |merged.rows| && c in PlColumns ==> At(out.rows[k], c) == At(merged.rows[k], c)
  {
    assert PlFunctions(df).value == Select(PlMerged(df), PlColumns).value;
  }

  /** Every output row of pl_functions pairs a 2013 row and a 2017 row of the input, as `PlPair` describes. */
  lemma PlRowSound(df: Frame, o: Row)
    requires PlFunctions(df).Ok? && o in PlFunctions(df).value.rows
    ensures exists a, b :: a in df.rows && b in df.rows && PlPair(o, a, b)
  {
    PlStages(df);
    PlShapeFacts();
    PlRowSoundAt(PlShape, df, PlScored(df).value, PlYear(df, 2013), PlYear(df, 2017), PlMerged(df), PlFunctions(df).value, o);
  }

  lemma PlRowSoundAt(s: Shape, df: Frame, scored: Frame, start: Frame, end: Frame, merged: Frame, out: Frame, o: Row)
    requires Distinct(s.Columns()) && s.on == PersonKey
    requires "pid" in s.left && "hid" in s.left && "aggregate_loneliness" in s.left && "health" in s.left
    requires "aggregate_loneliness" in s.right && "aggregate_loneliness" !in s.on
    requires s.LeftName("aggregate_loneliness") == "aggregate_loneliness_2013" && s.LeftName("health") == "health_2013"
    requires s.RightName("aggregate_loneliness") == "aggregate_loneliness_2017"
    requires |scored.rows| == |df.rows| && forall i :: 0 <= i < |df.rows| ==> PlScoredOf(scored.rows[i], df.rows[i])
    requires forall x :: x in start.rows <==>
      exists i :: 0 <= i < |scored.rows| && HasYear(scored.rows[i], 2013) && x == scored.rows[i]["syear" := Some(Num(2013 as real))]
    requires forall x :: x in end.rows <==>
      exists i :: 0 <= i < |scored.rows| && HasYear(scored.rows[i], 2017) && x == scored.rows[i]["syear" := Some(Num(2017 as real))]
    requires merged.rows == MergeRows(s, Inner, start.rows, end.rows)
    requires |out.rows| == |merged.rows| && forall k, c :: 0 <= k < |merged.rows| && c in PlColumns ==> At(out.rows[k], c) == At(merged.rows[k], c)
    requires o in out.rows
    ensures exists a, b :: a in df.rows && b in df.rows && PlPair(o, a, b)
  {
    var k :| 0 <= k < |out.rows| && out.rows[k] == o;
    var m := merged.rows[k];
    PlProjected(o, m);
    MergeRowsSound(s, Inner, start.rows, end.rows, m);
    var l :| l in start.rows && FromLeftRow(s, Inner, l, end.rows, m);
    var e :| e in end.rows && Matches(l, e, s.on) && m == JoinRow(s, l, e);
    var i :| 0 <= i < |scored.rows| && HasYear(scored.rows[i], 2013) && l == scored.rows[i]["syear" := Some(Num(2013 as real))];
    var j :| 0 <= j < |scored.rows| && HasYear(scored.rows[j], 2017) && e == scored.rows[j]["syear" := Some(Num(2017 as real))];
    var a, b := df.rows[i], df.rows[j];
    assert PlScoredOf(scored.rows[i], a) && PlScoredOf(scored.rows[j], b);
    PlJoinedPair(s, a, b, scored.rows[i], scored.rows[j], l, e, o);
    assert a in df.rows && b in df.rows;
  }

  /** Setting the year keeps the key on which two survey years are joined. */
  lemma YearRowsMatch(sa: Row, sb: Row, ya: Cell, yb: Cell)
    requires At(sa, "pid") == At(sb, "pid") && At(sa, "hid") == At(sb, "hid")
    ensures Matches(sa["syear" := ya], sb["syear" := yb], PersonKey)
  {
  }

  /** pl_functions keeps every person and household answered in both 2013 and 2017. */
  lemma PlRowComplete(df: Frame, a: Row, b: Row)
    requires PlFunctions(df).Ok? && a in df.rows && b in df.rows
    requires HasYear(a, 2013) && HasYear(b, 2017) && At(a, "pid") == At(b, "pid") && At(a, "hid") == At(b, "hid")
    ensures exists o :: o in PlFunctions(df).value.rows && PlPair(o, a, b)
  {
    PlStages(df);
    PlShapeFacts();
    var scored := PlScored(df).value;
    forall i | 0 <= i < |scored.rows| && HasYear(scored.rows[i], 2013)
      ensures scored.rows[i]["syear" := Some(Num(2013 as real))] in PlYear(df, 2013).rows
    {
      FilterByYearKeeps(scored, 2013, i);
    }
    forall i | 0 <= i < |scored.rows| && HasYear(scored.rows[i], 2017)
      ensures scored.rows[i]["syear" := Some(Num(2017 as real))] in PlYear(df, 2017).rows
    {
      FilterByYearKeeps(scored, 2017, i);
    }
    PlRowCompleteAt(PlShape, df, PlScored(df).value, PlYear(df, 2013), PlYear(df, 2017), PlMerged(df), PlFunctions(df).value, a, b);
  }

  lemma PlRowCompleteAt(s: Shape, df: Frame, scored: Frame, start: Frame, end: Frame, merged: Frame, out: Frame, a: Row, b: Row)
    requires Distinct(s.Columns()) && s.on == PersonKey
    requires "pid" in s.left && "hid" in s.left && "aggregate_loneliness" in s.left && "health" in s.left
    requires "aggregate_loneliness" in s.right && "aggregate_loneliness" !in s.on
    requires s.LeftName("aggregate_loneliness") == "aggregate_loneliness_2013" && s.LeftName("health") == "health_2013"
    requires s.RightName("aggregate_loneliness") == "aggregate_loneliness_2017"
    requires |scored.rows| == |df.rows| && forall i :: 0 <= i < |df.rows| ==> PlScoredOf(scored.rows[i], df.rows[i])
    requires forall i :: 0 <= i < |scored.rows| && HasYear(scored.rows[i], 2013) ==> scored.rows[i]["syear" := Some(Num(2013 as real))] in start.rows
    requires forall i :: 0 <= i < |scored.rows| && HasYear(scored.rows[i], 2017) ==> scored.rows[i]["syear" := Some(Num(2017 as real))] in end.rows
    requires merged.rows == MergeRows(s, Inner, start.rows, end.rows)
    requires |out.rows| == |merged.rows| && forall k, c :: 0 <= k < |merged.rows| && c in PlColumns ==> At(out.rows[k], c) == At(merged.rows[k], c)
    requires a in df.rows && b in df.rows
    requires HasYear(a, 2013) && HasYear(b, 2017) && At(a, "pid") == At(b, "pid") && At(a, "hid") == At(b, "hid")
    ensures exists o :: o in out.rows && PlPair(o, a, b)
  {
    var sa, sb := PlYearRows(df, scored, start, end, a, b);
    PlPairReached(s, start, end, merged, out, a, b, sa, sb);
  }

  /** The joined row of two scored rows of one person reaches the output of pl_functions. */
  lemma PlPairReached(s: Shape, start: Frame, end: Frame, merged: Frame, out: Frame, a: Row, b: Row, sa: Row, sb: Row)
    requires Distinct(s.Columns()) && s.on == PersonKey
    requires "pid" in s.left && "hid" in s.left && "aggregate_loneliness" in s.left && "health" in s.left
    requires "aggregate_loneliness" in s.right && "aggregate_loneliness" !in s.on
    requires s.LeftName("aggregate_loneliness") == "aggregate_loneliness_2013" && s.LeftName("health") == "health_2013"
    requires s.RightName("aggregate_loneliness") == "aggregate_loneliness_2017"
    requires merged.rows == MergeRows(s, Inner, start.rows, end.rows)
    requires |out.rows| == |merged.rows| && forall k, c :: 0 <= k < |merged.rows| && c in PlColumns ==> At(out.rows[k], c) == At(merged.rows[k], c)
    requires PlScoredOf(sa, a) && PlScoredOf(sb, b) && HasYear(sa, 2013) && HasYear(sb, 2017)
    requires sa["syear" := Some(Num(2013 as real))] in start.rows && sb["syear" := Some(Num(2017 as real))] in end.rows
    requires At(sa, "pid") == At(sb, "pid") && At(sa, "hid") == At(sb, "hid")
    ensures exists o :: o in out.rows && PlPair(o, a, b)
  {
    var l := sa["syear" := Some(Num(2013 as real))];
    var e := sb["syear" := Some(Num(2017 as real))];
    YearRowsMatch(sa, sb, Some(Num(2013 as real)), Some(Num(2017 as real)));
    MergeRowsComplete(s, Inner, start.rows, end.rows, l, e);
    var k :| 0 <= k < |merged.rows| && merged.rows[k] == JoinRow(s, l, e);
    PlProjected(out.rows[k], merged.rows[k]);
    PlJoinedPair(s, a, b, sa, sb, l, e, out.rows[k]);
    assert out.rows[k] in out.rows;
  }

  /** The scored rows of a 2013 row and a 2017 row of one person, and their places among the year rows. */
  lemma PlYearRows(df: Frame, scored: Frame, start: Frame, end: Frame, a: Row, b: Row) returns (sa: Row, sb: Row)
    requires |scored.rows| == |df.rows| && forall i :: 0 <= i < |df.rows| ==> PlScoredOf(scored.rows[i], df.rows[i])
    requires forall i :: 0 <= i < |scored.rows| && HasYear(scored.rows[i], 2013) ==> scored.rows[i]["syear" := Some(Num(2013 as real))] in start.rows
    requires forall i :: 0 <= i < |scored.rows| && HasYear(scored.rows[i], 2017) ==> scored.rows[i]["syear" := Some(Num(2017 as real))] in end.rows
    requires a in df.rows && b in df.rows
    requires HasYear(a, 2013) && HasYear(b, 2017) && At(a, "pid") == At(b, "pid") && At(a, "hid") == At(b, "hid")
    ensures PlScoredOf(sa, a) && PlScoredOf(sb, b) && HasYear(sa, 2013) && HasYear(sb, 2017)
    ensures sa["syear" := Some(Num(2013 as real))] in start.rows && sb["syear" := Some(Num(2017 as real))] in end.rows
    ensures At(sa, "pid") == At(sb, "pid") && At(sa, "hid") == At(sb, "hid")
  {
    var i :| 0 <= i < |df.rows| && df.rows[i] == a;
    var j :| 0 <= j < |df.rows| && df.rows[j] == b;
    sa, sb := scored.rows[i], scored.rows[j];
    assert PlScoredOf(sa, a) && PlScoredOf(sb, b);
  }

  /** A cell as the survey delivers it: missing, a non-response label, or one of the item's answer labels. */
  predicate AnswerOf(c: Cell, labels: seq<string>) {
    c.None? || IsSentinel(c) || (c.value.Str? && c.value.s in labels)
  }

  /** Every loneliness answer is scored between 1 and 5, every non-response is missing. */
  lemma LonelinessItemRange(c: Cell)
    requires AnswerOf(c, LonelinessLabels)
    ensures Recode(DropSentinel(c), Mapping1).Some?
    ensures var v := Recode(DropSentinel(c), Mapping1).value; v.Some? ==> v.value.Num? && 1.0 <= v.value.x <= 5.0
  {
    if c.Some? && !IsSentinel(c) {
      var k :| 0 <= k < |LonelinessLabels| && LonelinessLabels[k] == c.value.s;
      LonelinessScore(k);
    }
  }

  /** The health scores: the codes of the five answers. */
  const HealthCodes: set<real> := {1.0, 2.0, 3.0, 4.0, 5.0}

  /** Every health answer is scored by its code, every non-response is missing. */
  lemma HealthItemRange(c: Cell)
    requires AnswerOf(c, HealthLabels)
    ensures Recode(DropSentinel(c), Mapping2).Some?
    ensures var v := Recode(DropSentinel(c), Mapping2).value;
      v.None? || (v.value.Num? && v.value.x in HealthCodes)
  {
    if c.Some? && !IsSentinel(c) {
      var k :| 0 <= k < |HealthLabels| && HealthLabels[k] == c.value.s;
      HealthScore(k);
      assert Recode(DropSentinel(c), Mapping2).value == Some(Num((k + 1) as real));
    }
  }

  /**
   * An input row holding only answer labels and non-responses can be scored:
   * its aggregate loneliness is missing or lies between 1 and 5, and its
   * health is missing or a code from 1 to 5.
   */
  lemma PlScoresInRange(r: Row)
    requires AnswerOf(At(r, "plj0587"), LonelinessLabels) && AnswerOf(At(r, "plj0588"), LonelinessLabels)
    requires AnswerOf(At(r, "plj0589"), LonelinessLabels) && AnswerOf(At(r, "ple0008"), HealthLabels)
    ensures PlScorable(r)
    ensures RawLoneliness(r).Some? ==> 1.0 <= RawLoneliness(r).value.x <= 5.0
    ensures RawHealth(r).None? || (RawHealth(r).value.Num? && RawHealth(r).value.x in HealthCodes)
  {
    LonelinessItemRange(At(r, "plj0587"));
    LonelinessItemRange(At(r, "plj0588"));
    LonelinessItemRange(At(r, "plj0589"));
    HealthItemRange(At(r, "ple0008"));
    MeanBounds([ItemScore(r, "plj0587", Mapping1).value, ItemScore(r, "plj0588", Mapping1).value, ItemScore(r, "plj0589", Mapping1).value], 1.0, 5.0);
  }

  // ---------------------------------------------------------------------------
  // pgen_covariates
  // ---------------------------------------------------------------------------

  /** The marital status label that counts as married (pgen_covariates, line 266). */
  const Married: string := "[1] " + "Verheiratet, mit Ehepartner zusammenlebend"

  /**
   * The employment status label that pgen_covariates keeps (line 270). The
   * source spells the umlaut as the two characters of its UTF-8 bytes read
   * as Latin-1, so only a label spelt that way matches.
   */
  const FullTime: string := "[1] Voll erwerbst\U{00C3}\U{00A4}tig"

  /** The columns that pgen_covariates reads, in the order it first reads them. */
  const CovariateInputs: seq<string> := ["syear", "pgfamstd", "pgemplst", "pgbilzeit", "pid", "hid"]

  /** The columns pgen_covariates returns. */
  const CovariateColumns: seq<string> := ["marital_status", "education", "pid", "hid"]

  /** `np.where(pgfamstd == Married, 1, 0)`: a missing status compares false. */
  function MaritalStatus(row: Row): (r: Cell)
    ensures r == Some(Num(1.0)) <==> At(row, "pgfamstd") == Some(Str(Married))
    ensures r == Some(Num(0.0)) || r == Some(Num(1.0))
  {
    if At(row, "pgfamstd") == Some(Str(Married)) then Some(Num(1.0)) else Some(Num(0.0))
  }

  /** The row filter of line 270: the person works full time. */
  predicate FullTimeRow(row: Row) {
    At(row, "pgemplst") == Some(Str(FullTime))
  }

  /** Row `x` of the marked frame carries input row `r`'s key, employment, schooling and marital flag. */
  predicate MarkedOf(x: Row, r: Row) {
    && At(x, "pid") == At(r, "pid") && At(x, "hid") == At(r, "hid")
    && At(x, "pgemplst") == At(r, "pgemplst") && At(x, "pgbilzeit") == At(r, "pgbilzeit")
    && At(x, "marital_status") == MaritalStatus(r)
  }

  /** Row `x` is marked from some 2013 row of `df`. */
  predicate MarkedFrom(x: Row, df: Frame) {
    exists i :: 0 <= i < |df.rows| && HasYear(df.rows[i], 2013) && MarkedOf(x, df.rows[i])
  }

  /** Some row of `rows` is marked from input row `r`. */
  predicate MarkedIn(rows: seq<Row>, r: Row) {
    exists k :: 0 <= k < |rows| && MarkedOf(rows[k], r)
  }

  /** pgen_covariates, lines 262-269: the 2013 rows with non-responses to pgfamstd dropped and the marital flag added. */
  function CovariatesMarked(df: Frame): (r: Result<Frame, Error>)
    ensures r.Ok? <==> "syear" in df.columns && "pgfamstd" in df.columns
    ensures r.Err? ==> r.error.MissingColumn? && r.error.name in CovariateInputs && r.error.name !in df.columns
    ensures r.Ok? ==> r.value.columns == AddColumn(df.columns, "marital_status")
    ensures r.Ok? ==> forall k :: 0 <= k < |r.value.rows| ==> MarkedFrom(r.value.rows[k], df)
    ensures r.Ok? ==> forall i :: 0 <= i < |df.rows| && HasYear(df.rows[i], 2013) ==> MarkedIn(r.value.rows, df.rows[i])
  {
    var year :- FilterByYear(df, 2013);
    var famstd :- ReplaceInvalidResponses(year, "pgfamstd", "category");
    var marked := Assign(famstd, "marital_status", MaritalStatus);
    CovariatesMarkedFacts(df, year, famstd, marked);
    Ok(marked)
  }

  lemma CovariatesMarkedFacts(df: Frame, year: Frame, famstd: Frame, marked: Frame)
    requires forall x :: x in year.rows <==>
      exists i :: 0 <= i < |df.rows| && HasYear(df.rows[i], 2013) && x == df.rows[i]["syear" := Some(Num(2013 as real))]
    requires |famstd.rows| == |year.rows|
    requires forall k :: 0 <= k < |year.rows| ==> At(famstd.rows[k], "pgfamstd") == CleanCell(At(year.rows[k], "pgfamstd"), "category")
    requires forall k, d :: 0 <= k < |year.rows| && d != "pgfamstd" ==> At(famstd.rows[k], d) == At(year.rows[k], d)
    requires |marked.rows| == |famstd.rows|
    requires forall k :: 0 <= k < |famstd.rows| ==> At(marked.rows[k], "marital_status") == MaritalStatus(famstd.rows[k])
    requires forall k, d :: 0 <= k < |famstd.rows| && d != "marital_status" ==> At(marked.rows[k], d) == At(famstd.rows[k], d)
    ensures forall k :: 0 <= k < |marked.rows| ==> MarkedFrom(marked.rows[k], df)
    ensures forall i :: 0 <= i < |df.rows| && HasYear(df.rows[i], 2013) ==> MarkedIn(marked.rows, df.rows[i])
  {
    forall k | 0 <= k < |marked.rows| ensures MarkedFrom(marked.rows[k], df) {
      assert year.rows[k] in year.rows;
      var i :| 0 <= i < |df.rows| && HasYear(df.rows[i], 2013) && year.rows[k] == df.rows[i]["syear" := Some(Num(2013 as real))];
      MarkedRow(df.rows[i], year.rows[k], famstd.rows[k], marked.rows[k]);
      assert 0 <= i < |df.rows| && HasYear(df.rows[i], 2013) && MarkedOf(marked.rows[k], df.rows[i]);
    }
    forall i | 0 <= i < |df.rows| && HasYear(df.rows[i], 2013) ensures MarkedIn(marked.rows, df.rows[i]) {
      var y := df.rows[i]["syear" := Some(Num(2013 as real))];
      assert y in year.rows;
      var k :| 0 <= k < |year.rows| && year.rows[k] == y;
      MarkedRow(df.rows[i], year.rows[k], famstd.rows[k], marked.rows[k]);
    }
  }

  /** One row of [CovariatesMarked]. */
  lemma MarkedRow(r: Row, y: Row, f: Row, m: Row)
    requires y == r["syear" := Some(Num(2013 as real))]
    requires At(f, "pgfamstd") == CleanCell(At(y, "pgfamstd"), "category")
    requires forall d :: d != "pgfamstd" ==> At(f, d) == At(y, d)
    requires At(m, "marital_status") == MaritalStatus(f)
    requires forall d :: d != "marital_status" ==> At(m, d) == At(f, d)
    ensures MarkedOf(m, r)
  {
    PositiveLabelIsAnswer(Married);
    assert At(y, "pgfamstd") == At(r, "pgfamstd");
  }

  /** A row that pgen_covariates returns: input row `r` is a full-time worker's 2013 row, and `o` holds its covariates. */
  predicate CovariateOf(o: Row, r: Row) {
    && HasYear(r, 2013) && FullTimeRow(r)
    && At(o, "pid") == At(r, "pid") && At(o, "hid") == At(r, "hid")
    && At(o, "marital_status") == MaritalStatus(r)
    && At(o, "education") == CleanCell(At(r, "pgbilzeit"), "float")
  }

  /** Output row `o` holds the covariates of some input row of `df`. */
  predicate CovariateFrom(o: Row, df: Frame) {
    exists i :: 0 <= i < |df.rows| && CovariateOf(o, df.rows[i])
  }

  /** Some row of `rows` holds the covariates of input row `r`. */
  predicate CovariateIn(rows: seq<Row>, r: Row) {
    exists o :: o in rows && CovariateOf(o, r)
  }

  /** Row `o` holds the key, marital flag and cleaned years of education of marked row `e`. */
  predicate KeptOf(o: Row, e: Row) {
    && At(o, "pid") == At(e, "pid") && At(o, "hid") == At(e, "hid")
    && At(o, "marital_status") == At(e, "marital_status")
    && At(o, "education") == CleanCell(At(e, "pgbilzeit"), "float")
  }

  /** Row `o` is kept from some full-time row of `marked`. */
  predicate KeptFrom(o: Row, marked: Frame) {
    exists j :: 0 <= j < |marked.rows| && FullTimeRow(marked.rows[j]) && KeptOf(o, marked.rows[j])
  }

  /** Some row of `rows` is kept from marked row `e`. */
  predicate KeptIn(rows: seq<Row>, e: Row) {
    exists o :: o in rows && KeptOf(o, e)
  }

  /** The columns that the second half of pgen_covariates reads. */
  const KeptInputs: seq<string> := ["pgemplst", "pgbilzeit", "marital_status", "pid", "hid"]

  /** pgen_covariates, lines 270-273: keep the full-time workers, clean pgbilzeit, rename it and select. */
  function CovariatesKept(marked: Frame): (r: Result<Frame, Error>)
    ensures r.Ok? <==> forall c :: c in KeptInputs ==> c in marked.columns
    ensures r.Err? ==> r.error.MissingColumn? && r.error.name in KeptInputs && r.error.name !in marked.columns
    ensures r.Ok? ==> r.value.columns == CovariateColumns
    ensures r.Ok? ==> forall o :: o in r.value.rows ==> KeptFrom(o, marked)
    ensures r.Ok? ==> forall j :: 0 <= j < |marked.rows| && FullTimeRow(marked.rows[j]) ==> KeptIn(r.value.rows, marked.rows[j])
  {
    KeptInputsPresent(marked.columns);
    if "pgemplst" !in marked.columns then Err(MissingColumn("pgemplst"))
    else
      var employed := Where(marked, FullTimeRow);
      var schooled :- ReplaceInvalidResponses(employed, "pgbilzeit", "float");
      var renamed := Rename(schooled, "pgbilzeit", "education");
      CovariateColumnsPresent(marked.columns, renamed.columns);
      var out :- Select(renamed, CovariateColumns);
      KeptFacts(marked, employed, schooled, renamed, out);
      Ok(out)
  }

  /** The five columns of [KeptInputs] one by one. */
  lemma KeptInputsPresent(cols: seq<string>)
    ensures (forall c :: c in KeptInputs ==> c in cols) <==>
      "pgemplst" in cols && "pgbilzeit" in cols && "marital_status" in cols && "pid" in cols && "hid" in cols
  {
    assert KeptInputs == ["pgemplst", "pgbilzeit", "marital_status", "pid", "hid"];
  }

  /** The selection of line 273 finds its columns exactly when pid and hid were there before the rename. */
  lemma CovariateColumnsPresent(before: seq<string>, cols: seq<string>)
    requires forall d :: d != "pgbilzeit" && d != "education" ==> (d in cols <==> d in before)
    requires "education" in cols
    ensures (forall c :: c in CovariateColumns ==> c in cols) <==> "marital_status" in before && "pid" in before && "hid" in before
  {
    assert CovariateColumns == ["marital_status", "education", "pid", "hid"];
  }

  lemma KeptFacts(marked: Frame, employed: Frame, schooled: Frame, renamed: Frame, out: Frame)
    requires forall x :: x in employed.rows <==> x in marked.rows && FullTimeRow(x)
    requires |schooled.rows| == |employed.rows|
    requires forall k :: 0 <= k < |employed.rows| ==> At(schooled.rows[k], "pgbilzeit") == CleanCell(At(employed.rows[k], "pgbilzeit"), "float")
    requires forall k, d :: 0 <= k < |employed.rows| && d != "pgbilzeit" ==> At(schooled.rows[k], d) == At(employed.rows[k], d)
    requires "pgbilzeit" in schooled.columns && |renamed.rows| == |schooled.rows|
    requires forall k :: 0 <= k < |schooled.rows| ==> At(renamed.rows[k], "education") == At(schooled.rows[k], "pgbilzeit")
    requires forall k, d :: 0 <= k < |schooled.rows| && d != "pgbilzeit" && d != "education" ==> At(renamed.rows[k], d) == At(schooled.rows[k], d)
    requires |out.rows| == |renamed.rows|
    requires forall k, c :: 0 <= k < |renamed.rows| && c in CovariateColumns ==> At(out.rows[k], c) == At(renamed.rows[k], c)
    ensures forall o :: o in out.rows ==> KeptFrom(o, marked)
    ensures forall j :: 0 <= j < |marked.rows| && FullTimeRow(marked.rows[j]) ==> KeptIn(out.rows, marked.rows[j])
  {
    forall o | o in out.rows ensures KeptFrom(o, marked) {
      var k :| 0 <= k < |out.rows| && out.rows[k] == o;
      var e := employed.rows[k];
      assert e in employed.rows;
      var j :| 0 <= j < |marked.rows| && marked.rows[j] == e;
      KeptRow(e, schooled.rows[k], renamed.rows[k], o);
    }
    forall j | 0 <= j < |marked.rows| && FullTimeRow(marked.rows[j]) ensures KeptIn(out.rows, marked.rows[j]) {
      var e := marked.rows[j];
      assert e in employed.rows;
      var k :| 0 <= k < |employed.rows| && employed.rows[k] == e;
      KeptRow(e, schooled.rows[k], renamed.rows[k], out.rows[k]);
      assert out.rows[k] in out.rows;
    }
  }

  /** One row of [CovariatesKept]. */
  lemma KeptRow(e: Row, sc: Row, rn: Row, o: Row)
    requires At(sc, "pgbilzeit") == CleanCell(At(e, "pgbilzeit"), "float")
    requires forall d :: d != "pgbilzeit" ==> At(sc, d) == At(e, d)
    requires At(rn, "education") == At(sc, "pgbilzeit")
    requires forall d :: d != "pgbilzeit" && d != "education" ==> At(rn, d) == At(sc, d)
    requires forall c :: c in CovariateColumns ==> At(o, c) == At(rn, c)
    ensures KeptOf(o, e)
  {
    assert CovariateColumns == ["marital_status", "education", "pid", "hid"];
    assert At(o, "marital_status") == At(rn, "marital_status") && At(o, "education") == At(rn, "education");
    assert At(o, "pid") == At(rn, "pid") && At(o, "hid") == At(rn, "hid");
  }

  /**
   * pgen_covariates: marital flag, years of education (non-responses dropped,
   * coerced to numbers), pid and hid of the full-time workers of 2013.
   */
  function PgenCovariates(df: Frame): (r: Result<Frame, Error>)
    ensures r.Ok? <==> forall c :: c in CovariateInputs ==> c in df.columns
    ensures r.Err? ==> r.error.MissingColumn? && r.error.name in CovariateInputs && r.error.name !in df.columns
    ensures r.Ok? ==> r.value.columns == CovariateColumns
    ensures r.Ok? ==> forall o :: o in r.value.rows ==> CovariateFrom(o, df)
    ensures r.Ok? ==> forall i :: 0 <= i < |df.rows| && HasYear(df.rows[i], 2013) && FullTimeRow(df.rows[i]) ==>
      CovariateIn(r.value.rows, df.rows[i])
  {
    CovariateInputsPresent(df.columns);
    var marked :- CovariatesMarked(df);
    KeptInputsPresent(marked.columns);
    var out :- CovariatesKept(marked);
    CovariatesFacts(df, marked, out);
    Ok(out)
  }

  /** The six input columns one by one. */
  lemma CovariateInputsPresent(cols: seq<string>)
    ensures (forall c :: c in CovariateInputs ==> c in cols) <==>
      && "syear" in cols && "pgfamstd" in cols && "pgemplst" in cols
      && "pgbilzeit" in cols && "pid" in cols && "hid" in cols
  {
    assert CovariateInputs == ["syear", "pgfamstd", "pgemplst", "pgbilzeit", "pid", "hid"];
  }

  lemma CovariatesFacts(df: Frame, marked: Frame, out: Frame)
    requires forall k :: 0 <= k < |marked.rows| ==> MarkedFrom(marked.rows[k], df)
    requires forall i :: 0 <= i < |df.rows| && HasYear(df.rows[i], 2013) ==> MarkedIn(marked.rows, df.rows[i])
    requires forall o :: o in out.rows ==> KeptFrom(o, marked)
    requires forall j :: 0 <= j < |marked.rows| && FullTimeRow(marked.rows[j]) ==> KeptIn(out.rows, marked.rows[j])
    ensures forall o :: o in out.rows ==> CovariateFrom(o, df)
    ensures forall i :: 0 <= i < |df.rows| && HasYear(df.rows[i], 2013) && FullTimeRow(df.rows[i]) ==>
      CovariateIn(out.rows, df.rows[i])
  {
    forall o | o in out.rows ensures CovariateFrom(o, df) {
      var j :| 0 <= j < |marked.rows| && FullTimeRow(marked.rows[j]) && KeptOf(o, marked.rows[j]);
      var i :| 0 <= i < |df.rows| && HasYear(df.rows[i], 2013) && MarkedOf(marked.rows[j], df.rows[i]);
      CovariateRow(df.rows[i], marked.rows[j], o);
    }
    forall i | 0 <= i < |df.rows| && HasYear(df.rows[i], 2013) && FullTimeRow(df.rows[i])
      ensures CovariateIn(out.rows, df.rows[i])
    {
      var j :| 0 <= j < |marked.rows| && MarkedOf(marked.rows[j], df.rows[i]);
      assert FullTimeRow(marked.rows[j]);
      var o :| o in out.rows && KeptOf(o, marked.rows[j]);
      CovariateRow(df.rows[i], marked.rows[j], o);
    }
  }

  /** One row of [PgenCovariates]. */
  lemma CovariateRow(r: Row, e: Row, o: Row)
    requires HasYear(r, 2013) && MarkedOf(e, r) && FullTimeRow(e) && KeptOf(o, e)
    ensures CovariateOf(o, r)
  {
  }

  // ---------------------------------------------------------------------------
  // hgen_functions, hbrutto_functions
  // ---------------------------------------------------------------------------

  /** Output row `o` holds household `r`'s id and its item `code`, cleaned to a float, under `name`. */
  predicate HouseholdOf(o: Row, r: Row, code: string, name: string) {
    && HasYear(r, 2013)
    && At(o, "hid") == At(r, "hid")
    && At(o, name) == CleanCell(At(r, code), "float")
  }

  predicate HouseholdFrom(o: Row, df: Frame, code: string, name: string) {
    exists i :: 0 <= i < |df.rows| && HouseholdOf(o, df.rows[i], code, name)
  }

  predicate HouseholdIn(rows: seq<Row>, r: Row, code: string, name: string) {
    exists o :: o in rows && HouseholdOf(o, r, code, name)
  }

  /** The admissible arguments of [HouseholdItem]: the selected columns hold the id, the year and the item. */
  predicate HouseholdInputs(inputs: seq<string>, code: string, name: string) {
    && "hid" in inputs && "syear" in inputs && code in inputs && name !in inputs
    && code != "hid" && code != "syear" && name != "hid" && name != "syear"
  }

  /**
   * The shared shape of hgen_functions and hbrutto_functions: select `inputs`,
   * keep 2013, rename item `code` to `name`, clean it to a float, and return
   * the household id with that column.
   */
  function HouseholdItem(df: Frame, inputs: seq<string>, code: string, name: string): (r: Result<Frame, Error>)
    requires HouseholdInputs(inputs, code, name)
    ensures r.Ok? <==> forall c :: c in inputs ==> c in df.columns
    ensures r.Err? ==> r.error.MissingColumn? && r.error.name in inputs && r.error.name !in df.columns
    ensures r.Ok? ==> r.value.columns == ["hid", name]
    ensures r.Ok? ==> forall o :: o in r.value.rows ==> HouseholdFrom(o, df, code, name)
    ensures r.Ok? ==> forall i :: 0 <= i < |df.rows| && HasYear(df.rows[i], 2013) ==> HouseholdIn(r.value.rows, df.rows[i], code, name)
  {
    var picked :- Select(df, inputs);
    var year := FilterByYear(picked, 2013).value;
    var renamed := Rename(year, code, name);
    var cleaned := ReplaceInvalidResponses(renamed, name, "float").value;
    assert "hid" in cleaned.columns && name in cleaned.columns;
    var out := Select(cleaned, ["hid", name]).value;
    HouseholdFacts(df, inputs, code, name, picked, year, renamed, cleaned, out);
    Ok(out)
  }

  lemma HouseholdFacts(df: Frame, inputs: seq<string>, code: string, name: string,
                       picked: Frame, year: Frame, renamed: Frame, cleaned: Frame, out: Frame)
    requires HouseholdInputs(inputs, code, name)
    requires |picked.rows| == |df.rows|
    requires forall i, c :: 0 <= i < |df.rows| && c in inputs ==> At(picked.rows[i], c) == At(df.rows[i], c)
    requires forall x :: x in year.rows <==>
      exists i :: 0 <= i < |picked.rows| && HasYear(picked.rows[i], 2013) && x == picked.rows[i]["syear" := Some(Num(2013 as real))]
    requires |renamed.rows| == |year.rows|
    requires forall k :: 0 <= k < |year.rows| ==> At(renamed.rows[k], name) == At(year.rows[k], code)
    requires forall k, d :: 0 <= k < |year.rows| && d != code && d != name ==> At(renamed.rows[k], d) == At(year.rows[k], d)
    requires |cleaned.rows| == |renamed.rows|
    requires forall k :: 0 <= k < |renamed.rows| ==> At(cleaned.rows[k], name) == CleanCell(At(renamed.rows[k], name), "float")
    requires forall k, d :: 0 <= k < |renamed.rows| && d != name ==> At(cleaned.rows[k], d) == At(renamed.rows[k], d)
    requires |out.rows| == |cleaned.rows|
    requires forall k, c :: 0 <= k < |cleaned.rows| && c in ["hid", name] ==> At(out.rows[k], c) == At(cleaned.rows[k], c)
    ensures forall o :: o in out.rows ==> HouseholdFrom(o, df, code, name)
    ensures forall i :: 0 <= i < |df.rows| && HasYear(df.rows[i], 2013) ==> HouseholdIn(out.rows, df.rows[i], code, name)
  {
    forall o | o in out.rows ensures HouseholdFrom(o, df, code, name) {
      var k :| 0 <= k < |out.rows| && out.rows[k] == o;
      assert year.rows[k] in year.rows;
      var i :| 0 <= i < |picked.rows| && HasYear(picked.rows[i], 2013) && year.rows[k] == picked.rows[i]["syear" := Some(Num(2013 as real))];
      HouseholdRow(df.rows[i], picked.rows[i], year.rows[k], renamed.rows[k], cleaned.rows[k], o, inputs, code, name);
    }
    forall i | 0 <= i < |df.rows| && HasYear(df.rows[i], 2013) ensures HouseholdIn(out.rows, df.rows[i], code, name) {
      assert At(picked.rows[i], "syear") == At(df.rows[i], "syear");
      var y := picked.rows[i]["syear" := Some(Num(2013 as real))];
      assert y in year.rows;
      var k :| 0 <= k < |year.rows| && year.rows[k] == y;
      HouseholdRow(df.rows[i], picked.rows[i], year.rows[k], renamed.rows[k], cleaned.rows[k], out.rows[k], inputs, code, name);
      assert out.rows[k] in out.rows;
    }
  }

  /** One row of [HouseholdItem]. */
  lemma HouseholdRow(r: Row, p: Row, y: Row, rn: Row, c: Row, o: Row, inputs: seq<string>, code: string, name: string)
    requires HouseholdInputs(inputs, code, name)
    requires forall d :: d in inputs ==> At(p, d) == At(r, d)
    requires HasYear(p, 2013) && y == p["syear" := Some(Num(2013 as real))]
    requires At(rn, name) == At(y, code)
    requires forall d :: d != code && d != name ==> At(rn, d) == At(y, d)
    requires At(c, name) == CleanCell(At(rn, name), "float")
    requires forall d :: d != name ==> At(c, d) == At(rn, d)
    requires forall d :: d in ["hid", name] ==> At(o, d) == At(c, d)
    ensures HouseholdOf(o, r, code, name)
  {
    assert "hid" in ["hid", name] && name in ["hid", name];
    assert At(p, "syear") == At(r, "syear") && At(p, code) == At(r, code) && At(p, "hid") == At(r, "hid");
  }

  /** hgen_functions: the 2013 household incomes, cleaned to floats. */
  function HgenFunctions(df: Frame): (r: Result<Frame, Error>)
    ensures r.Ok? <==> "hid" in df.columns && "hgi1hinc" in df.columns && "syear" in df.columns
    ensures r.Err? ==> r.error.MissingColumn? && r.error.name !in df.columns
    ensures r.Ok? ==> r.value.columns == ["hid", "hh_income"]
    ensures r.Ok? ==> forall o :: o in r.value.rows ==> HouseholdFrom(o, df, "hgi1hinc", "hh_income")
    ensures r.Ok? ==> forall i :: 0 <= i < |df.rows| && HasYear(df.rows[i], 2013) ==> HouseholdIn(r.value.rows, df.rows[i], "hgi1hinc", "hh_income")
  {
    HouseholdItem(df, ["hid", "hgi1hinc", "syear"], "hgi1hinc", "hh_income")
  }

  /** hbrutto_functions: the 2013 household sizes, cleaned to floats. */
  function HbruttoFunctions(df: Frame): (r: Result<Frame, Error>)
    ensures r.Ok? <==> "hid" in df.columns && "syear" in df.columns && "hhgr" in df.columns
    ensures r.Err? ==> r.error.MissingColumn? && r.error.name !in df.columns
    ensures r.Ok? ==> r.value.columns == ["hid", "hh_members"]
    ensures r.Ok? ==> forall o :: o in r.value.rows ==> HouseholdFrom(o, df, "hhgr", "hh_members")
    ensures r.Ok? ==> forall i :: 0 <= i < |df.rows| && HasYear(df.rows[i], 2013) ==> HouseholdIn(r.value.rows, df.rows[i], "hhgr", "hh_members")
  {
    HouseholdItem(df, ["hid", "syear", "hhgr"], "hhgr", "hh_members")
  }
}
