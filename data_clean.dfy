/**
 * data_clean: the six cleaned extracts of clean_data.py joined into one
 * table on the person and household ids.
 */
module DataClean {
  import opened Wrappers
  import opened Cells
  import opened Frames
  import opened CleanData

  /** pandas' default merge suffixes; data_clean never needs them, since its merges share only keys. */
  const Sx := "_x"
  const Sy := "_y"

  const PidKey: seq<string> := ["pid"]
  const HidKey: seq<string> := ["hid"]

  /** The columns of each merge of data_clean, lines 328-332, in the order pandas lays them out. */
  const TreatedPathColumns: seq<string> := ["pid", "went_unemployed", "hid", "age", "sex"]
  const HouseholdColumns: seq<string> := ["hid", "hh_income", "hh_members"]
  const CovariedColumns: seq<string> := ["pid", "went_unemployed", "hid", "age", "sex", "marital_status", "education"]
  const LonelyColumns: seq<string> :=
    ["pid", "went_unemployed", "hid", "age", "sex", "marital_status", "education",
     "aggregate_loneliness_2013", "aggregate_loneliness_2017", "health_2013"]
  const DataColumns: seq<string> :=
    ["pid", "went_unemployed", "hid", "age", "sex", "marital_status", "education",
     "aggregate_loneliness_2013", "aggregate_loneliness_2017", "health_2013", "hh_income", "hh_members"]

  /** A disjoint inner merge succeeds, and its columns are the left ones followed by the right non-key ones. */
  lemma MergeLayout(lf: Frame, rf: Frame, on: seq<string>, cols: seq<string>)
    requires Disjoint(MergeShape(lf, rf, on, Sx, Sy)) && Distinct(lf.columns) && Distinct(rf.columns)
    requires forall k :: k in on ==> k in lf.columns && k in rf.columns
    requires lf.columns + Without(rf.columns, on) == cols
    ensures Merge(lf, rf, on, Inner, Sx, Sy).Ok? && Merge(lf, rf, on, Inner, Sx, Sy).value.columns == cols
  {
    DisjointShape(MergeShape(lf, rf, on, Sx, Sy));
  }

  /** Line 328: treatment joined with ppath on pid. */
  lemma TreatedPathLayout()
    ensures Disjoint(Shape(TreatmentColumns, PpathColumns, PidKey, Sx, Sy))
    ensures Distinct(TreatmentColumns) && Distinct(PpathColumns)
    ensures TreatmentColumns + Without(PpathColumns, PidKey) == TreatedPathColumns
  {
    WithoutCons("sex", [], PidKey);
    WithoutCons("pid", ["sex"], PidKey);
    WithoutCons("age", ["pid", "sex"], PidKey);
    assert PpathColumns == ["age", "pid", "sex"];
  }

  /** Line 329: household income joined with household size on hid. */
  lemma HouseholdLayout()
    ensures Disjoint(Shape(["hid", "hh_income"], ["hid", "hh_members"], HidKey, Sx, Sy))
    ensures Distinct(["hid", "hh_income"]) && Distinct(["hid", "hh_members"])
    ensures ["hid", "hh_income"] + Without(["hid", "hh_members"], HidKey) == HouseholdColumns
  {
    WithoutCons("hh_members", [], HidKey);
    WithoutCons("hid", ["hh_members"], HidKey);
  }

  /** Line 330: joined with the covariates on (pid, hid). */
  lemma CovariedLayout()
    ensures Disjoint(Shape(TreatedPathColumns, CovariateColumns, PersonKey, Sx, Sy))
    ensures Distinct(TreatedPathColumns) && Distinct(CovariateColumns)
    ensures TreatedPathColumns + Without(CovariateColumns, PersonKey) == CovariedColumns
  {
    CovariateRest();
    CovariedDisjoint();
    TreatedPathDistinct();
  }

  lemma TreatedPathDistinct()
    ensures Distinct(TreatedPathColumns) && Distinct(CovariateColumns)
  {
  }

  lemma CovariedDisjoint()
    ensures Disjoint(Shape(TreatedPathColumns, CovariateColumns, PersonKey, Sx, Sy))
  {
  }

  lemma CovariateRest()
    ensures Without(CovariateColumns, PersonKey) == ["marital_status", "education"]
  {
    WithoutCons("hid", [], PersonKey);
    WithoutCons("pid", ["hid"], PersonKey);
    WithoutCons("education", ["pid", "hid"], PersonKey);
    WithoutCons("marital_status", ["education", "pid", "hid"], PersonKey);
    assert CovariateColumns == ["marital_status"] + ["education", "pid", "hid"];
  }

  /** Line 331: joined with the loneliness scores on (pid, hid). */
  lemma LonelyLayout()
    ensures Disjoint(Shape(CovariedColumns, PlColumns, PersonKey, Sx, Sy))
    ensures Distinct(CovariedColumns) && Distinct(PlColumns)
    ensures CovariedColumns + Without(PlColumns, PersonKey) == LonelyColumns
  {
    PlColumnsRest();
    LonelyDisjoint();
    CovariedDistinct();
  }

  lemma CovariedDistinct()
    ensures Distinct(CovariedColumns) && Distinct(PlColumns)
  {
  }

  lemma LonelyDisjoint()
    ensures Disjoint(Shape(CovariedColumns, PlColumns, PersonKey, Sx, Sy))
  {
  }

  lemma PlColumnsRest()
    ensures Without(PlColumns, PersonKey) == ["aggregate_loneliness_2013", "aggregate_loneliness_2017", "health_2013"]
  {
    var t3 := ["health_2013"];
    var t2 := ["aggregate_loneliness_2017"] + t3;
    var t1 := ["aggregate_loneliness_2013"] + t2;
    WithoutCons("health_2013", [], PersonKey);
    WithoutCons("aggregate_loneliness_2017", t3, PersonKey);
    WithoutCons("aggregate_loneliness_2013", t2, PersonKey);
    WithoutCons("hid", t1, PersonKey);
    WithoutCons("pid", ["hid"] + t1, PersonKey);
    assert PlColumns == ["pid"] + (["hid"] + t1);
  }

  /** Line 332: joined with the household table on hid. */
  lemma DataLayout()
    ensures Disjoint(Shape(LonelyColumns, HouseholdColumns, HidKey, Sx, Sy))
    ensures Distinct(LonelyColumns) && Distinct(HouseholdColumns)
    ensures LonelyColumns + Without(HouseholdColumns, HidKey) == DataColumns
  {
    WithoutCons("hh_members", [], HidKey);
    WithoutCons("hh_income", ["hh_members"], HidKey);
    WithoutCons("hid", ["hh_income", "hh_members"], HidKey);
  }

  /** Line 328: the treatment flags joined with age and sex on pid. */
  function JoinPath(df1: Frame, df4: Frame): (r: Frame)
    requires df1.columns == TreatmentColumns && df4.columns == PpathColumns
    ensures Merge(df1, df4, PidKey, Inner, Sx, Sy) == Ok(r)
    ensures r.columns == TreatedPathColumns
  {
    TreatedPathLayout();
    MergeLayout(df1, df4, PidKey, TreatedPathColumns);
    Merge(df1, df4, PidKey, Inner, Sx, Sy).value
  }

  /** Line 329: household income joined with household size on hid. */
  function JoinHousehold(df5: Frame, df6: Frame): (r: Frame)
    requires df5.columns == ["hid", "hh_income"] && df6.columns == ["hid", "hh_members"]
    ensures Merge(df5, df6, HidKey, Inner, Sx, Sy) == Ok(r)
    ensures r.columns == HouseholdColumns
  {
    HouseholdLayout();
    MergeLayout(df5, df6, HidKey, HouseholdColumns);
    Merge(df5, df6, HidKey, Inner, Sx, Sy).value
  }

  /** Line 330: the covariates joined on (pid, hid). */
  function JoinCovariates(m1: Frame, df3: Frame): (r: Frame)
    requires m1.columns == TreatedPathColumns && df3.columns == CovariateColumns
    ensures Merge(m1, df3, PersonKey, Inner, Sx, Sy) == Ok(r)
    ensures r.columns == CovariedColumns
  {
    CovariedLayout();
    MergeLayout(m1, df3, PersonKey, CovariedColumns);
    Merge(m1, df3, PersonKey, Inner, Sx, Sy).value
  }

  /** Line 331: the loneliness and health scores joined on (pid, hid). */
  function JoinLoneliness(m2: Frame, df2: Frame): (r: Frame)
    requires m2.columns == CovariedColumns && df2.columns == PlColumns
    ensures Merge(m2, df2, PersonKey, Inner, Sx, Sy) == Ok(r)
    ensures r.columns == LonelyColumns
  {
    LonelyLayout();
    MergeLayout(m2, df2, PersonKey, LonelyColumns);
    Merge(m2, df2, PersonKey, Inner, Sx, Sy).value
  }

  /** Line 332: the household table joined on hid. */
  function JoinAll(m3: Frame, m5: Frame): (r: Frame)
    requires m3.columns == LonelyColumns && m5.columns == HouseholdColumns
    ensures Merge(m3, m5, HidKey, Inner, Sx, Sy) == Ok(r)
    ensures r.columns == DataColumns
  {
    DataLayout();
    MergeLayout(m3, m5, HidKey, DataColumns);
    Merge(m3, m5, HidKey, Inner, Sx, Sy).value
  }

  /** Lines 328-332 on the six cleaned tables: none of the five merges can fail. */
  function Joined(df1: Frame, df2: Frame, df3: Frame, df4: Frame, df5: Frame, df6: Frame): (r: Frame)
    requires df1.columns == TreatmentColumns && df2.columns == PlColumns && df3.columns == CovariateColumns
    requires df4.columns == PpathColumns && df5.columns == ["hid", "hh_income"] && df6.columns == ["hid", "hh_members"]
    ensures r.columns == DataColumns
  {
    JoinAll(JoinLoneliness(JoinCovariates(JoinPath(df1, df4), df3), df2), JoinHousehold(df5, df6))
  }

  /**
   * data_clean (lines 319-333): clean the six extracts in the order of the
   * source and join them; the first stage that fails decides the error.
   */
  function DataClean(pgenTreat: Frame, pgenCov: Frame, ppath: Frame, pl: Frame, hgen: Frame, hbrutto: Frame): (r: Result<Frame, Error>)
    ensures r.Ok? <==> && PgenTreatment(pgenTreat).Ok? && PlFunctions(pl).Ok? && PgenCovariates(pgenCov).Ok?
                       && PpathFunctions(ppath).Ok? && HgenFunctions(hgen).Ok? && HbruttoFunctions(hbrutto).Ok?
    ensures PgenTreatment(pgenTreat).Err? ==> r == Err(PgenTreatment(pgenTreat).error)
    ensures PgenTreatment(pgenTreat).Ok? && PlFunctions(pl).Err? ==> r == Err(PlFunctions(pl).error)
    ensures PgenTreatment(pgenTreat).Ok? && PlFunctions(pl).Ok? && PgenCovariates(pgenCov).Err? ==>
      r == Err(PgenCovariates(pgenCov).error)
    ensures PgenTreatment(pgenTreat).Ok? && PlFunctions(pl).Ok? && PgenCovariates(pgenCov).Ok? && PpathFunctions(ppath).Err? ==>
      r == Err(PpathFunctions(ppath).error)
    ensures (PgenTreatment(pgenTreat).Ok? && PlFunctions(pl).Ok? && PgenCovariates(pgenCov).Ok? && PpathFunctions(ppath).Ok?
             && HgenFunctions(hgen).Err?) ==> r == Err(HgenFunctions(hgen).error)
    ensures (PgenTreatment(pgenTreat).Ok? && PlFunctions(pl).Ok? && PgenCovariates(pgenCov).Ok? && PpathFunctions(ppath).Ok?
             && HgenFunctions(hgen).Ok? && HbruttoFunctions(hbrutto).Err?) ==> r == Err(HbruttoFunctions(hbrutto).error)
    ensures r.Ok? ==> r.value.columns == DataColumns
  {
    var df1 :- PgenTreatment(pgenTreat);
    var df2 :- PlFunctions(pl);
    var df3 :- PgenCovariates(pgenCov);
    var df4 :- PpathFunctions(ppath);
    var df5 :- HgenFunctions(hgen);
    var df6 :- HbruttoFunctions(hbrutto);
    Ok(Joined(df1, df2, df3, df4, df5, df6))
  }

  /**
   * Output row `o` joins treatment row `t`, ppath row `p`, covariate row `c`,
   * loneliness row `l`, income row `h` and household-size row `b`: it carries
   * their common person and household ids and each value column of its table.
   */
  predicate DataRowOf(o: Row, t: Row, p: Row, c: Row, l: Row, h: Row, b: Row) {
    && At(o, "pid") == At(t, "pid") && At(p, "pid") == At(t, "pid")
    && At(c, "pid") == At(t, "pid") && At(l, "pid") == At(t, "pid")
    && At(o, "hid") == At(t, "hid") && At(c, "hid") == At(t, "hid") && At(l, "hid") == At(t, "hid")
    && At(h, "hid") == At(t, "hid") && At(b, "hid") == At(t, "hid")
    && At(o, "went_unemployed") == At(t, "went_unemployed")
    && At(o, "age") == At(p, "age") && At(o, "sex") == At(p, "sex")
    && At(o, "marital_status") == At(c, "marital_status") && At(o, "education") == At(c, "education")
    && At(o, "aggregate_loneliness_2013") == At(l, "aggregate_loneliness_2013")
    && At(o, "aggregate_loneliness_2017") == At(l, "aggregate_loneliness_2017")
    && At(o, "health_2013") == At(l, "health_2013")
    && At(o, "hh_income") == At(h, "hh_income") && At(o, "hh_members") == At(b, "hh_members")
  }

  /** What a joined row of line 328 takes from each side. */
  lemma PathJoinFacts(x1: Row, t: Row, p: Row)
    requires JoinedFrom(x1, t, p, TreatmentColumns, PpathColumns, PidKey)
    ensures At(p, "pid") == At(t, "pid")
    ensures At(x1, "pid") == At(t, "pid") && At(x1, "hid") == At(t, "hid") && At(x1, "went_unemployed") == At(t, "went_unemployed")
    ensures At(x1, "age") == At(p, "age") && At(x1, "sex") == At(p, "sex")
  {
    assert "pid" in PidKey && "hid" in TreatmentColumns && "went_unemployed" in TreatmentColumns;
    assert "age" in PpathColumns && "sex" in PpathColumns;
  }

  /** What a joined row of line 329 takes from each side. */
  lemma HouseholdJoinFacts(y: Row, h: Row, b: Row)
    requires JoinedFrom(y, h, b, ["hid", "hh_income"], ["hid", "hh_members"], HidKey)
    ensures At(b, "hid") == At(h, "hid") && At(y, "hid") == At(h, "hid")
    ensures At(y, "hh_income") == At(h, "hh_income") && At(y, "hh_members") == At(b, "hh_members")
  {
    assert "hid" in HidKey && "hh_income" in ["hid", "hh_income"] && "hh_members" in ["hid", "hh_members"];
  }

  /** What a joined row of line 330 takes from each side. */
  lemma CovariedJoinFacts(x2: Row, x1: Row, c: Row)
    requires JoinedFrom(x2, x1, c, TreatedPathColumns, CovariateColumns, PersonKey)
    ensures At(c, "pid") == At(x1, "pid") && At(c, "hid") == At(x1, "hid")
    ensures At(x2, "pid") == At(x1, "pid") && At(x2, "hid") == At(x1, "hid")
    ensures At(x2, "went_unemployed") == At(x1, "went_unemployed")
    ensures At(x2, "age") == At(x1, "age") && At(x2, "sex") == At(x1, "sex")
    ensures At(x2, "marital_status") == At(c, "marital_status") && At(x2, "education") == At(c, "education")
  {
    assert "pid" in PersonKey && "hid" in PersonKey;
    assert "pid" in TreatedPathColumns && "hid" in TreatedPathColumns && "went_unemployed" in TreatedPathColumns;
    assert "age" in TreatedPathColumns && "sex" in TreatedPathColumns;
    assert "marital_status" in CovariateColumns && "education" in CovariateColumns;
  }

  /** What a joined row of line 331 takes from each side. */
  lemma LonelyJoinFacts(x3: Row, x2: Row, l: Row)
    requires JoinedFrom(x3, x2, l, CovariedColumns, PlColumns, PersonKey)
    ensures At(l, "pid") == At(x2, "pid") && At(l, "hid") == At(x2, "hid")
    ensures forall c :: c in CovariedColumns ==> At(x3, c) == At(x2, c)
    ensures At(x3, "aggregate_loneliness_2013") == At(l, "aggregate_loneliness_2013")
    ensures At(x3, "aggregate_loneliness_2017") == At(l, "aggregate_loneliness_2017")
    ensures At(x3, "health_2013") == At(l, "health_2013")
  {
    assert "pid" in PersonKey && "hid" in PersonKey;
    assert "aggregate_loneliness_2013" in PlColumns && "aggregate_loneliness_2017" in PlColumns && "health_2013" in PlColumns;
  }

  /** What a joined row of line 332 takes from each side. */
  lemma DataJoinFacts(o: Row, x3: Row, y: Row)
    requires JoinedFrom(o, x3, y, LonelyColumns, HouseholdColumns, HidKey)
    ensures At(y, "hid") == At(x3, "hid")
    ensures forall c :: c in LonelyColumns ==> At(o, c) == At(x3, c)
    ensures At(o, "hh_income") == At(y, "hh_income") && At(o, "hh_members") == At(y, "hh_members")
  {
    assert "hid" in HidKey && "hh_income" in HouseholdColumns && "hh_members" in HouseholdColumns;
  }

  /** Five row joins on the keys of data_clean compose into one [DataRowOf]. */
  lemma RowOfJoins(o: Row, x3: Row, x2: Row, x1: Row, y: Row, t: Row, p: Row, c: Row, l: Row, h: Row, b: Row)
    requires JoinedFrom(x1, t, p, TreatmentColumns, PpathColumns, PidKey)
    requires JoinedFrom(y, h, b, ["hid", "hh_income"], ["hid", "hh_members"], HidKey)
    requires JoinedFrom(x2, x1, c, TreatedPathColumns, CovariateColumns, PersonKey)
    requires JoinedFrom(x3, x2, l, CovariedColumns, PlColumns, PersonKey)
    requires JoinedFrom(o, x3, y, LonelyColumns, HouseholdColumns, HidKey)
    ensures DataRowOf(o, t, p, c, l, h, b)
  {
    PathJoinFacts(x1, t, p);
    HouseholdJoinFacts(y, h, b);
    CovariedJoinFacts(x2, x1, c);
    LonelyJoinFacts(x3, x2, l);
    DataJoinFacts(o, x3, y);
    assert "pid" in CovariedColumns && "hid" in CovariedColumns && "went_unemployed" in CovariedColumns;
    assert "age" in CovariedColumns && "sex" in CovariedColumns;
    assert "marital_status" in CovariedColumns && "education" in CovariedColumns;
    assert "pid" in LonelyColumns && "hid" in LonelyColumns && "health_2013" in LonelyColumns;
    assert "aggregate_loneliness_2013" in LonelyColumns && "aggregate_loneliness_2017" in LonelyColumns;

  }

  /** The cleaned tables hold rows that [DataRowOf] joins into `o`. */
  predicate DataRowFrom(o: Row, df1: Frame, df2: Frame, df3: Frame, df4: Frame, df5: Frame, df6: Frame) {
    exists t, p, c, l, h, b :: t in df1.rows && p in df4.rows && c in df3.rows && l in df2.rows && h in df5.rows && b in df6.rows
      && DataRowOf(o, t, p, c, l, h, b)
  }

  /** Rows of the six cleaned tables that the merges of data_clean pair up: all share the person and household ids. */
  predicate KeysAgree(t: Row, p: Row, c: Row, l: Row, h: Row, b: Row) {
    && At(p, "pid") == At(t, "pid") && At(c, "pid") == At(t, "pid") && At(l, "pid") == At(t, "pid")
    && At(c, "hid") == At(t, "hid") && At(l, "hid") == At(t, "hid")
    && At(h, "hid") == At(t, "hid") && At(b, "hid") == At(t, "hid")
  }

  /** Every joined row is made of one row of each cleaned table. */
  lemma JoinedSound(df1: Frame, df2: Frame, df3: Frame, df4: Frame, df5: Frame, df6: Frame, o: Row)
    requires df1.columns == TreatmentColumns && df2.columns == PlColumns && df3.columns == CovariateColumns
    requires df4.columns == PpathColumns && df5.columns == ["hid", "hh_income"] && df6.columns == ["hid", "hh_members"]
    requires o in Joined(df1, df2, df3, df4, df5, df6).rows
    ensures DataRowFrom(o, df1, df2, df3, df4, df5, df6)
  {
    var m1 := JoinPath(df1, df4);
    var m5 := JoinHousehold(df5, df6);
    var m2 := JoinCovariates(m1, df3);
    var m3 := JoinLoneliness(m2, df2);
    TreatedPathLayout();
    HouseholdLayout();
    CovariedLayout();
    LonelyLayout();
    DataLayout();
    DisjointMergeSound(m3, m5, HidKey, Sx, Sy, o);
    var x3, y :| x3 in m3.rows && y in m5.rows && JoinedFrom(o, x3, y, m3.columns, m5.columns, HidKey);
    DisjointMergeSound(m2, df2, PersonKey, Sx, Sy, x3);
    var x2, l :| x2 in m2.rows && l in df2.rows && JoinedFrom(x3, x2, l, m2.columns, df2.columns, PersonKey);
    DisjointMergeSound(m1, df3, PersonKey, Sx, Sy, x2);
    var x1, c :| x1 in m1.rows && c in df3.rows && JoinedFrom(x2, x1, c, m1.columns, df3.columns, PersonKey);
    DisjointMergeSound(df1, df4, PidKey, Sx, Sy, x1);
    var t, p :| t in df1.rows && p in df4.rows && JoinedFrom(x1, t, p, df1.columns, df4.columns, PidKey);
    DisjointMergeSound(df5, df6, HidKey, Sx, Sy, y);
    var h, b :| h in df5.rows && b in df6.rows && JoinedFrom(y, h, b, df5.columns, df6.columns, HidKey);
    RowOfJoins(o, x3, x2, x1, y, t, p, c, l, h, b);
  }

  lemma MatchOn(a: Row, b: Row, k: string)
    requires At(a, k) == At(b, k)
    ensures Matches(a, b, [k])
  {
  }

  lemma MatchPerson(a: Row, b: Row)
    requires At(a, "pid") == At(b, "pid") && At(a, "hid") == At(b, "hid")
    ensures Matches(a, b, PersonKey)
  {
  }

  /** A treatment row and a ppath row of the same person meet in a row of line 328. */
  lemma PickPath(df1: Frame, df4: Frame, t: Row, p: Row) returns (x1: Row)
    requires df1.columns == TreatmentColumns && df4.columns == PpathColumns
    requires t in df1.rows && p in df4.rows && At(p, "pid") == At(t, "pid")
    ensures x1 in JoinPath(df1, df4).rows
    ensures At(x1, "pid") == At(t, "pid") && At(x1, "hid") == At(t, "hid") && At(x1, "went_unemployed") == At(t, "went_unemployed")
    ensures At(x1, "age") == At(p, "age") && At(x1, "sex") == At(p, "sex")
  {
    TreatedPathLayout();
    MatchOn(t, p, "pid");
    assert MergeShape(df1, df4, PidKey, Sx, Sy) == Shape(TreatmentColumns, PpathColumns, PidKey, Sx, Sy);
    assert Merge(df1, df4, PidKey, Inner, Sx, Sy) == Ok(JoinPath(df1, df4));
    DisjointMergeComplete(df1, df4, PidKey, Sx, Sy, t, p);
    x1 :| x1 in JoinPath(df1, df4).rows && JoinedFrom(x1, t, p, df1.columns, df4.columns, PidKey);
    PathJoinFacts(x1, t, p);
  }

  /** An income row and a household-size row of the same household meet in a row of line 329. */
  lemma PickHousehold(df5: Frame, df6: Frame, h: Row, b: Row) returns (y: Row)
    requires df5.columns == ["hid", "hh_income"] && df6.columns == ["hid", "hh_members"]
    requires h in df5.rows && b in df6.rows && At(b, "hid") == At(h, "hid")
    ensures y in JoinHousehold(df5, df6).rows
    ensures At(y, "hid") == At(h, "hid") && At(y, "hh_income") == At(h, "hh_income") && At(y, "hh_members") == At(b, "hh_members")
  {
    HouseholdLayout();
    MatchOn(h, b, "hid");
    assert MergeShape(df5, df6, HidKey, Sx, Sy) == Shape(["hid", "hh_income"], ["hid", "hh_members"], HidKey, Sx, Sy);
    assert Merge(df5, df6, HidKey, Inner, Sx, Sy) == Ok(JoinHousehold(df5, df6));
    DisjointMergeComplete(df5, df6, HidKey, Sx, Sy, h, b);
    y :| y in JoinHousehold(df5, df6).rows && JoinedFrom(y, h, b, df5.columns, df6.columns, HidKey);
    HouseholdJoinFacts(y, h, b);
  }

  /** A row of line 328 and a covariate row with its ids meet in a row of line 330. */
  lemma PickCovaried(m1: Frame, df3: Frame, x1: Row, c: Row) returns (x2: Row)
    requires m1.columns == TreatedPathColumns && df3.columns == CovariateColumns
    requires x1 in m1.rows && c in df3.rows && At(c, "pid") == At(x1, "pid") && At(c, "hid") == At(x1, "hid")
    ensures x2 in JoinCovariates(m1, df3).rows
    ensures At(x2, "pid") == At(x1, "pid") && At(x2, "hid") == At(x1, "hid")
    ensures At(x2, "went_unemployed") == At(x1, "went_unemployed")
    ensures At(x2, "age") == At(x1, "age") && At(x2, "sex") == At(x1, "sex")
    ensures At(x2, "marital_status") == At(c, "marital_status") && At(x2, "education") == At(c, "education")
  {
    CovariedLayout();
    MatchPerson(x1, c);
    assert MergeShape(m1, df3, PersonKey, Sx, Sy) == Shape(TreatedPathColumns, CovariateColumns, PersonKey, Sx, Sy);
    assert Merge(m1, df3, PersonKey, Inner, Sx, Sy) == Ok(JoinCovariates(m1, df3));
    DisjointMergeComplete(m1, df3, PersonKey, Sx, Sy, x1, c);
    x2 :| x2 in JoinCovariates(m1, df3).rows && JoinedFrom(x2, x1, c, m1.columns, df3.columns, PersonKey);
    CovariedJoinFacts(x2, x1, c);
  }

  /** A row of line 330 and a loneliness row with its ids meet in a row of line 331. */
  lemma PickLonely(m2: Frame, df2: Frame, x2: Row, l: Row) returns (x3: Row)
    requires m2.columns == CovariedColumns && df2.columns == PlColumns
    requires x2 in m2.rows && l in df2.rows && At(l, "pid") == At(x2, "pid") && At(l, "hid") == At(x2, "hid")
    ensures x3 in JoinLoneliness(m2, df2).rows
    ensures forall c :: c in CovariedColumns ==> At(x3, c) == At(x2, c)
    ensures At(x3, "aggregate_loneliness_2013") == At(l, "aggregate_loneliness_2013")
    ensures At(x3, "aggregate_loneliness_2017") == At(l, "aggregate_loneliness_2017")
    ensures At(x3, "health_2013") == At(l, "health_2013")
  {
    LonelyLayout();
    MatchPerson(x2, l);
    assert MergeShape(m2, df2, PersonKey, Sx, Sy) == Shape(CovariedColumns, PlColumns, PersonKey, Sx, Sy);
    assert Merge(m2, df2, PersonKey, Inner, Sx, Sy) == Ok(JoinLoneliness(m2, df2));
    DisjointMergeComplete(m2, df2, PersonKey, Sx, Sy, x2, l);
    x3 :| x3 in JoinLoneliness(m2, df2).rows && JoinedFrom(x3, x2, l, m2.columns, df2.columns, PersonKey);
    LonelyJoinFacts(x3, x2, l);
  }

  /** A row of line 331 and a household row with its hid meet in a row of line 332. */
  lemma PickAll(m3: Frame, m5: Frame, x3: Row, y: Row) returns (o: Row)
    requires m3.columns == LonelyColumns && m5.columns == HouseholdColumns
    requires x3 in m3.rows && y in m5.rows && At(y, "hid") == At(x3, "hid")
    ensures o in JoinAll(m3, m5).rows
    ensures forall c :: c in LonelyColumns ==> At(o, c) == At(x3, c)
    ensures At(o, "hh_income") == At(y, "hh_income") && At(o, "hh_members") == At(y, "hh_members")
  {
    DataLayout();
    MatchOn(x3, y, "hid");
    assert MergeShape(m3, m5, HidKey, Sx, Sy) == Shape(LonelyColumns, HouseholdColumns, HidKey, Sx, Sy);
    assert Merge(m3, m5, HidKey, Inner, Sx, Sy) == Ok(JoinAll(m3, m5));
    DisjointMergeComplete(m3, m5, HidKey, Sx, Sy, x3, y);
    o :| o in JoinAll(m3, m5).rows && JoinedFrom(o, x3, y, m3.columns, m5.columns, HidKey);
    DataJoinFacts(o, x3, y);
  }

  /** Every choice of rows, one per cleaned table, whose ids agree is joined into some output row. */
  lemma JoinedComplete(df1: Frame, df2: Frame, df3: Frame, df4: Frame, df5: Frame, df6: Frame,
                       t: Row, p: Row, c: Row, l: Row, h: Row, b: Row)
    requires df1.columns == TreatmentColumns && df2.columns == PlColumns && df3.columns == CovariateColumns
    requires df4.columns == PpathColumns && df5.columns == ["hid", "hh_income"] && df6.columns == ["hid", "hh_members"]
    requires t in df1.rows && p in df4.rows && c in df3.rows && l in df2.rows && h in df5.rows && b in df6.rows
    requires KeysAgree(t, p, c, l, h, b)
    ensures exists o :: o in Joined(df1, df2, df3, df4, df5, df6).rows && DataRowOf(o, t, p, c, l, h, b)
  {
    var x1 := PickPath(df1, df4, t, p);
    var y := PickHousehold(df5, df6, h, b);
    var x2 := PickCovaried(JoinPath(df1, df4), df3, x1, c);
    var x3 := PickLonely(JoinCovariates(JoinPath(df1, df4), df3), df2, x2, l);
    var o := PickAll(JoinLoneliness(JoinCovariates(JoinPath(df1, df4), df3), df2), JoinHousehold(df5, df6), x3, y);
    assert "pid" in CovariedColumns && "hid" in CovariedColumns && "went_unemployed" in CovariedColumns;
    assert "age" in CovariedColumns && "sex" in CovariedColumns;
    assert "marital_status" in CovariedColumns && "education" in CovariedColumns;
    assert "pid" in LonelyColumns && "hid" in LonelyColumns && "health_2013" in LonelyColumns;
    assert "aggregate_loneliness_2013" in LonelyColumns && "aggregate_loneliness_2017" in LonelyColumns;
    assert DataRowOf(o, t, p, c, l, h, b);
  }

  /** On success data_clean is the join of the six cleaned tables. */
  lemma DataCleanJoined(pgenTreat: Frame, pgenCov: Frame, ppath: Frame, pl: Frame, hgen: Frame, hbrutto: Frame)
    requires DataClean(pgenTreat, pgenCov, ppath, pl, hgen, hbrutto).Ok?
    ensures PgenTreatment(pgenTreat).Ok? && PlFunctions(pl).Ok? && PgenCovariates(pgenCov).Ok?
    ensures PpathFunctions(ppath).Ok? && HgenFunctions(hgen).Ok? && HbruttoFunctions(hbrutto).Ok?
    ensures DataClean(pgenTreat, pgenCov, ppath, pl, hgen, hbrutto).value ==
      Joined(PgenTreatment(pgenTreat).value, PlFunctions(pl).value, PgenCovariates(pgenCov).value,
             PpathFunctions(ppath).value, HgenFunctions(hgen).value, HbruttoFunctions(hbrutto).value)
  {
  }

  /** Every row data_clean returns joins one row of each cleaned table. */
  lemma DataCleanRowSound(pgenTreat: Frame, pgenCov: Frame, ppath: Frame, pl: Frame, hgen: Frame, hbrutto: Frame, o: Row)
    requires DataClean(pgenTreat, pgenCov, ppath, pl, hgen, hbrutto).Ok?
    requires o in DataClean(pgenTreat, pgenCov, ppath, pl, hgen, hbrutto).value.rows
    ensures PgenTreatment(pgenTreat).Ok? && PlFunctions(pl).Ok? && PgenCovariates(pgenCov).Ok?
    ensures PpathFunctions(ppath).Ok? && HgenFunctions(hgen).Ok? && HbruttoFunctions(hbrutto).Ok?
    ensures DataRowFrom(o, PgenTreatment(pgenTreat).value, PlFunctions(pl).value, PgenCovariates(pgenCov).value,
                        PpathFunctions(ppath).value, HgenFunctions(hgen).value, HbruttoFunctions(hbrutto).value)
  {
    DataCleanJoined(pgenTreat, pgenCov, ppath, pl, hgen, hbrutto);
    JoinedSound(PgenTreatment(pgenTreat).value, PlFunctions(pl).value, PgenCovariates(pgenCov).value,
                PpathFunctions(ppath).value, HgenFunctions(hgen).value, HbruttoFunctions(hbrutto).value, o);
  }

  /** Every choice of agreeing rows of the cleaned tables reaches the output of data_clean. */
  lemma DataCleanRowComplete(pgenTreat: Frame, pgenCov: Frame, ppath: Frame, pl: Frame, hgen: Frame, hbrutto: Frame,
                             t: Row, p: Row, c: Row, l: Row, h: Row, b: Row)
    requires DataClean(pgenTreat, pgenCov, ppath, pl, hgen, hbrutto).Ok?
    requires PgenTreatment(pgenTreat).Ok? && t in PgenTreatment(pgenTreat).value.rows
    requires PpathFunctions(ppath).Ok? && p in PpathFunctions(ppath).value.rows
    requires PgenCovariates(pgenCov).Ok? && c in PgenCovariates(pgenCov).value.rows
    requires PlFunctions(pl).Ok? && l in PlFunctions(pl).value.rows
    requires HgenFunctions(hgen).Ok? && h in HgenFunctions(hgen).value.rows
    requires HbruttoFunctions(hbrutto).Ok? && b in HbruttoFunctions(hbrutto).value.rows
    requires KeysAgree(t, p, c, l, h, b)
    ensures exists o :: o in DataClean(pgenTreat, pgenCov, ppath, pl, hgen, hbrutto).value.rows && DataRowOf(o, t, p, c, l, h, b)
  {
    DataCleanJoined(pgenTreat, pgenCov, ppath, pl, hgen, hbrutto);
    JoinedComplete(PgenTreatment(pgenTreat).value, PlFunctions(pl).value, PgenCovariates(pgenCov).value,
                   PpathFunctions(ppath).value, HgenFunctions(hgen).value, HbruttoFunctions(hbrutto).value, t, p, c, l, h, b);
  }

  /** Output row `o` carries the treatment flag of a 2013 pgen row compared against the 2017 rows. */
  predicate TreatedFrom(o: Row, pgenTreat: Frame)
    requires TreatmentYear(pgenTreat, 2013).Ok? && TreatmentYear(pgenTreat, 2017).Ok?
  {
    exists l :: l in TreatmentYear(pgenTreat, 2013).value.rows && TreatedRow(o, l, TreatmentYear(pgenTreat, 2017).value.rows)
  }

  /** Output row `o` carries the age and sex of a working-age ppath row. */
  predicate PpathFrom(o: Row, ppath: Frame) {
    exists i :: 0 <= i < |ppath.rows| && WorkingAge(ppath.rows[i]) && PpathOf(o, ppath.rows[i])
  }

  /** Output row `o` carries the loneliness and health scores of a 2013 and a 2017 pl row of one person. */
  predicate PlPairFrom(o: Row, pl: Frame) {
    exists a, b :: a in pl.rows && b in pl.rows && PlPair(o, a, b)
  }

  /** Rows that agree on the columns a table contributes agree on what that table's predicate says of them. */
  lemma TreatedTransfer(o: Row, t: Row, l: Row, ends: seq<Row>)
    requires TreatedRow(t, l, ends)
    requires At(o, "pid") == At(t, "pid") && At(o, "hid") == At(t, "hid") && At(o, "went_unemployed") == At(t, "went_unemployed")
    ensures TreatedRow(o, l, ends)
  {
  }

  lemma PpathTransfer(o: Row, p: Row, r: Row)
    requires WorkingAge(r) && PpathOf(p, r)
    requires At(o, "pid") == At(p, "pid") && At(o, "age") == At(p, "age") && At(o, "sex") == At(p, "sex")
    ensures PpathOf(o, r)
  {
  }

  lemma CovariateTransfer(o: Row, c: Row, r: Row)
    requires CovariateOf(c, r)
    requires At(o, "pid") == At(c, "pid") && At(o, "hid") == At(c, "hid")
    requires At(o, "marital_status") == At(c, "marital_status") && At(o, "education") == At(c, "education")
    ensures CovariateOf(o, r)
  {
  }

  lemma PlTransfer(o: Row, l: Row, a: Row, b: Row)
    requires PlPair(l, a, b)
    requires At(o, "pid") == At(l, "pid") && At(o, "hid") == At(l, "hid")
    requires At(o, "aggregate_loneliness_2013") == At(l, "aggregate_loneliness_2013")
    requires At(o, "aggregate_loneliness_2017") == At(l, "aggregate_loneliness_2017")
    requires At(o, "health_2013") == At(l, "health_2013")
    ensures PlPair(o, a, b)
  {
  }

  lemma HouseholdTransfer(o: Row, h: Row, r: Row, code: string, name: string)
    requires HouseholdOf(h, r, code, name)
    requires At(o, "hid") == At(h, "hid") && At(o, name) == At(h, name)
    ensures HouseholdOf(o, r, code, name)
  {
  }

  /** The rows of the cleaned tables that [DataRowFrom] promises. */
  lemma SourceRows(o: Row, df1: Frame, df2: Frame, df3: Frame, df4: Frame, df5: Frame, df6: Frame)
      returns (t: Row, p: Row, c: Row, l: Row, h: Row, b: Row)
    requires DataRowFrom(o, df1, df2, df3, df4, df5, df6)
    ensures t in df1.rows && p in df4.rows && c in df3.rows && l in df2.rows && h in df5.rows && b in df6.rows
    ensures DataRowOf(o, t, p, c, l, h, b)
  {
    t, p, c, l, h, b :| t in df1.rows && p in df4.rows && c in df3.rows && l in df2.rows && h in df5.rows && b in df6.rows
      && DataRowOf(o, t, p, c, l, h, b);
  }

  /** A row that copies a pgen_treatment row's ids and flag traces back like that row. */
  lemma TraceTreatment(pgenTreat: Frame, t: Row, o: Row)
    requires PgenTreatment(pgenTreat).Ok? && t in PgenTreatment(pgenTreat).value.rows
    requires At(o, "pid") == At(t, "pid") && At(o, "hid") == At(t, "hid") && At(o, "went_unemployed") == At(t, "went_unemployed")
    ensures TreatmentYear(pgenTreat, 2013).Ok? && TreatmentYear(pgenTreat, 2017).Ok? && TreatedFrom(o, pgenTreat)
  {
    TreatmentRowSound(pgenTreat, t);
    var ends := TreatmentYear(pgenTreat, 2017).value.rows;
    var l :| l in TreatmentYear(pgenTreat, 2013).value.rows && TreatedRow(t, l, ends);
    TreatedTransfer(o, t, l, ends);
  }

  /** A row that copies a ppath_functions row's pid, age and sex traces back like that row. */
  lemma TracePpath(ppath: Frame, p: Row, o: Row)
    requires PpathFunctions(ppath).Ok? && p in PpathFunctions(ppath).value.rows
    requires At(o, "pid") == At(p, "pid") && At(o, "age") == At(p, "age") && At(o, "sex") == At(p, "sex")
    ensures PpathFrom(o, ppath)
  {
    PpathRowSound(ppath, p);
    var i :| 0 <= i < |ppath.rows| && WorkingAge(ppath.rows[i]) && PpathOf(p, ppath.rows[i]);
    PpathTransfer(o, p, ppath.rows[i]);
  }

  /** A row that copies a pgen_covariates row traces back like that row. */
  lemma TraceCovariates(pgenCov: Frame, c: Row, o: Row)
    requires PgenCovariates(pgenCov).Ok? && c in PgenCovariates(pgenCov).value.rows
    requires At(o, "pid") == At(c, "pid") && At(o, "hid") == At(c, "hid")
    requires At(o, "marital_status") == At(c, "marital_status") && At(o, "education") == At(c, "education")
    ensures CovariateFrom(o, pgenCov)
  {
    var j :| 0 <= j < |pgenCov.rows| && CovariateOf(c, pgenCov.rows[j]);
    CovariateTransfer(o, c, pgenCov.rows[j]);
  }

  /** A row that copies a pl_functions row traces back like that row. */
  lemma TracePl(pl: Frame, l: Row, o: Row)
    requires PlFunctions(pl).Ok? && l in PlFunctions(pl).value.rows
    requires At(o, "pid") == At(l, "pid") && At(o, "hid") == At(l, "hid")
    requires At(o, "aggregate_loneliness_2013") == At(l, "aggregate_loneliness_2013")
    requires At(o, "aggregate_loneliness_2017") == At(l, "aggregate_loneliness_2017")
    requires At(o, "health_2013") == At(l, "health_2013")
    ensures PlPairFrom(o, pl)
  {
    PlRowSound(pl, l);
    var a, b :| a in pl.rows && b in pl.rows && PlPair(l, a, b);
    PlTransfer(o, l, a, b);
  }

  /** A row that copies a household table's hid and item traces back like that table's row. */
  lemma TraceHousehold(df: Frame, out: Frame, h: Row, o: Row, code: string, name: string)
    requires forall x :: x in out.rows ==> HouseholdFrom(x, df, code, name)
    requires h in out.rows && At(o, "hid") == At(h, "hid") && At(o, name) == At(h, name)
    ensures HouseholdFrom(o, df, code, name)
  {
    var k :| 0 <= k < |df.rows| && HouseholdOf(h, df.rows[k], code, name);
    HouseholdTransfer(o, h, df.rows[k], code, name);
  }

  /**
   * Every row of data_clean traces back to the raw extracts: its flag to a
   * 2013 pgen row, its age and sex to a working-age ppath row, its covariates
   * to a full-time 2013 pgen row, its scores to a 2013 and a 2017 pl row of the
   * same person, and its household columns to 2013 hgen and hbrutto rows.
   */
  lemma DataCleanTrace(pgenTreat: Frame, pgenCov: Frame, ppath: Frame, pl: Frame, hgen: Frame, hbrutto: Frame, o: Row)
    requires DataClean(pgenTreat, pgenCov, ppath, pl, hgen, hbrutto).Ok?
    requires o in DataClean(pgenTreat, pgenCov, ppath, pl, hgen, hbrutto).value.rows
    ensures TreatmentYear(pgenTreat, 2013).Ok? && TreatmentYear(pgenTreat, 2017).Ok? && TreatedFrom(o, pgenTreat)
    ensures PpathFrom(o, ppath)
    ensures CovariateFrom(o, pgenCov)
    ensures PlPairFrom(o, pl)
    ensures HouseholdFrom(o, hgen, "hgi1hinc", "hh_income") && HouseholdFrom(o, hbrutto, "hhgr", "hh_members")
  {
    DataCleanRowSound(pgenTreat, pgenCov, ppath, pl, hgen, hbrutto, o);
    var df1, df2, df3 := PgenTreatment(pgenTreat).value, PlFunctions(pl).value, PgenCovariates(pgenCov).value;
    var df4, df5, df6 := PpathFunctions(ppath).value, HgenFunctions(hgen).value, HbruttoFunctions(hbrutto).value;
    var t, p, c, l, h, b := SourceRows(o, df1, df2, df3, df4, df5, df6);
    TraceTreatment(pgenTreat, t, o);
    TracePpath(ppath, p, o);
    TraceCovariates(pgenCov, c, o);
    TracePl(pl, l, o);
    TraceHousehold(hgen, df5, h, o, "hgi1hinc", "hh_income");
    TraceHousehold(hbrutto, df6, b, o, "hhgr", "hh_members");
  }

  /** The value ranges of the analysis table: binary flags and codes, and ages of working-age respondents. */
  lemma DataCleanBounds(pgenTreat: Frame, pgenCov: Frame, ppath: Frame, pl: Frame, hgen: Frame, hbrutto: Frame, o: Row)
    requires DataClean(pgenTreat, pgenCov, ppath, pl, hgen, hbrutto).Ok?
    requires o in DataClean(pgenTreat, pgenCov, ppath, pl, hgen, hbrutto).value.rows
    ensures At(o, "went_unemployed") == Some(Num(0.0)) || At(o, "went_unemployed") == Some(Num(1.0))
    ensures At(o, "age").Some? && At(o, "age").value.Num? && 22.0 <= At(o, "age").value.x <= 64.0
    ensures At(o, "sex") == Some(Num(0.0)) || At(o, "sex") == Some(Num(1.0))
    ensures At(o, "marital_status") == Some(Num(0.0)) || At(o, "marital_status") == Some(Num(1.0))
  {
    DataCleanRowSound(pgenTreat, pgenCov, ppath, pl, hgen, hbrutto, o);
    var df1, df2, df3 := PgenTreatment(pgenTreat).value, PlFunctions(pl).value, PgenCovariates(pgenCov).value;
    var df4, df5, df6 := PpathFunctions(ppath).value, HgenFunctions(hgen).value, HbruttoFunctions(hbrutto).value;
    var t, p, c, l, h, b := SourceRows(o, df1, df2, df3, df4, df5, df6);
    TreatmentFlagIsBinary(pgenTreat, t);
    PpathAgeBounds(ppath, p);
    var j :| 0 <= j < |pgenCov.rows| && CovariateOf(c, pgenCov.rows[j]);
  }

  /** A pl item that holds one of its labelled answers or a non-response. */
  predicate Answered(r: Row) {
    && AnswerOf(At(r, "plj0587"), LonelinessLabels) && AnswerOf(At(r, "plj0588"), LonelinessLabels)
    && AnswerOf(At(r, "plj0589"), LonelinessLabels) && AnswerOf(At(r, "ple0008"), HealthLabels)
  }

  /** The loneliness and health columns of data_clean come from a 2013 and a 2017 pl row of one person. */
  lemma DataCleanPlTrace(pgenTreat: Frame, pgenCov: Frame, ppath: Frame, pl: Frame, hgen: Frame, hbrutto: Frame, o: Row)
    requires DataClean(pgenTreat, pgenCov, ppath, pl, hgen, hbrutto).Ok?
    requires o in DataClean(pgenTreat, pgenCov, ppath, pl, hgen, hbrutto).value.rows
    ensures PlPairFrom(o, pl)
  {
    DataCleanRowSound(pgenTreat, pgenCov, ppath, pl, hgen, hbrutto, o);
    var df1, df2, df3 := PgenTreatment(pgenTreat).value, PlFunctions(pl).value, PgenCovariates(pgenCov).value;
    var df4, df5, df6 := PpathFunctions(ppath).value, HgenFunctions(hgen).value, HbruttoFunctions(hbrutto).value;
    var t, p, c, l, h, b := SourceRows(o, df1, df2, df3, df4, df5, df6);
    TracePl(pl, l, o);
  }

  /** The scores of a row taken from a pair of answered pl rows lie in the questionnaire's ranges. */
  lemma PairFromInRange(o: Row, pl: Frame)
    requires PlPairFrom(o, pl) && forall i :: 0 <= i < |pl.rows| ==> Answered(pl.rows[i])
    ensures At(o, "aggregate_loneliness_2013").Some? ==> At(o, "aggregate_loneliness_2013").value.Num? && 1.0 <= At(o, "aggregate_loneliness_2013").value.x <= 5.0
    ensures At(o, "aggregate_loneliness_2017").Some? ==> At(o, "aggregate_loneliness_2017").value.Num? && 1.0 <= At(o, "aggregate_loneliness_2017").value.x <= 5.0
    ensures At(o, "health_2013").None? || (At(o, "health_2013").value.Num? && At(o, "health_2013").value.x in HealthCodes)
  {
    var a, b := PickPair(o, pl);
    assert Answered(a) && Answered(b);
    PairScoresInRange(o, a, b);
  }

  /** The two pl rows an output row was paired from. */
  lemma PickPair(o: Row, pl: Frame) returns (a: Row, b: Row)
    requires PlPairFrom(o, pl)
    ensures a in pl.rows && b in pl.rows && PlPair(o, a, b)
  {
    a, b :| a in pl.rows && b in pl.rows && PlPair(o, a, b);
  }

  /** The scores a pair of answered pl rows gives an output row lie in the questionnaire's ranges. */
  lemma PairScoresInRange(o: Row, a: Row, b: Row)
    requires PlPair(o, a, b) && Answered(a) && Answered(b)
    ensures At(o, "aggregate_loneliness_2013").Some? ==> At(o, "aggregate_loneliness_2013").value.Num? && 1.0 <= At(o, "aggregate_loneliness_2013").value.x <= 5.0
    ensures At(o, "aggregate_loneliness_2017").Some? ==> At(o, "aggregate_loneliness_2017").value.Num? && 1.0 <= At(o, "aggregate_loneliness_2017").value.x <= 5.0
    ensures At(o, "health_2013").None? || (At(o, "health_2013").value.Num? && At(o, "health_2013").value.x in HealthCodes)
  {
    PlScoresInRange(a);
    PlScoresInRange(b);
  }

  /**
   * When every pl row answers with the questionnaire's labels, the output's
   * loneliness scores lie between 1 and 5 and its health is a code from 1 to 5.
   */
  lemma DataCleanScoreBounds(pgenTreat: Frame, pgenCov: Frame, ppath: Frame, pl: Frame, hgen: Frame, hbrutto: Frame, o: Row)
    requires DataClean(pgenTreat, pgenCov, ppath, pl, hgen, hbrutto).Ok?
    requires o in DataClean(pgenTreat, pgenCov, ppath, pl, hgen, hbrutto).value.rows
    requires forall i :: 0 <= i < |pl.rows| ==> Answered(pl.rows[i])
    ensures At(o, "aggregate_loneliness_2013").Some? ==> At(o, "aggregate_loneliness_2013").value.Num? && 1.0 <= At(o, "aggregate_loneliness_2013").value.x <= 5.0
    ensures At(o, "aggregate_loneliness_2017").Some? ==> At(o, "aggregate_loneliness_2017").value.Num? && 1.0 <= At(o, "aggregate_loneliness_2017").value.x <= 5.0
    ensures At(o, "health_2013").None? || (At(o, "health_2013").value.Num? && At(o, "health_2013").value.x in HealthCodes)
  {
    DataCleanPlTrace(pgenTreat, pgenCov, ppath, pl, hgen, hbrutto, o);
    PairFromInRange(o, pl);
  }
}
