/**
 * The data-frame operations that the cleaning code uses: column selection,
 * row filtering, column assignment, renaming and the merge (relational join)
 * on key columns with pandas' suffix rule for overlapping column names.
 *
 * A frame is a list of column names and a sequence of rows; a row maps column
 * names to cells. The column list decides which columns exist (a KeyError
 * otherwise); a row is read through `At`, which treats an absent entry as missing.
 */
module Frames {
  import opened Wrappers
  import opened Cells

  type Row = map<string, Cell>

  datatype Frame = Frame(columns: seq<string>, rows: seq<Row>)

  /** The exceptions the cleaning code can raise. */
  datatype Error =
    | MissingColumn(name: string)      // KeyError: a column that the frame does not have
    | InvalidDataType(tag: string)     // ValueError: a type tag other than int, float, category
    | NotIntegral(column: string)      // TypeError: astype("Int64") of a fractional number
    | NotFloat(column: string)         // ValueError: astype("float") of a non-numeric label
    | NotNumericOperand(column: string) // TypeError: arithmetic on a text cell
    | DuplicateColumns                 // MergeError: the suffixes give two columns one name

  function At(r: Row, c: string): Cell {
    if c in r then r[c] else None
  }

  predicate Distinct(names: seq<string>) {
    forall i, j :: 0 <= i < j < |names| ==> names[i] != names[j]
  }

  /** The first of `cols` that is not among `have`, if any. */
  function FirstMissing(cols: seq<string>, have: seq<string>): (m: Option<string>)
    ensures m.None? <==> forall c :: c in cols ==> c in have
    ensures m.Some? ==> m.value in cols && m.value !in have
  {
    if cols == [] then None
    else if cols[0] !in have then Some(cols[0])
    else FirstMissing(cols[1..], have)
  }

  // ---------------------------------------------------------------------------
  // Selecting columns: df[cols]
  // ---------------------------------------------------------------------------

  function ProjectRow(r: Row, cols: seq<string>): (p: Row)
    ensures p.Keys == set c | c in cols
    ensures forall c :: c in cols ==> At(p, c) == At(r, c)
  {
    map c | c in cols :: At(r, c)
  }

  /** `df[cols]`: exactly the listed columns, in the listed order; a KeyError names a missing one. */
  function Select(f: Frame, cols: seq<string>): (r: Result<Frame, Error>)
    ensures r.Ok? <==> forall c :: c in cols ==> c in f.columns
    ensures r.Err? ==> r.error.MissingColumn? && r.error.name in cols && r.error.name !in f.columns
    ensures r.Ok? ==> r.value.columns == cols && |r.value.rows| == |f.rows|
    ensures r.Ok? ==> forall i :: 0 <= i < |f.rows| ==> r.value.rows[i].Keys == set c | c in cols
    ensures r.Ok? ==> forall i, c :: 0 <= i < |f.rows| && c in cols ==> At(r.value.rows[i], c) == At(f.rows[i], c)
  {
    match FirstMissing(cols, f.columns)
    case Some(c) => Err(MissingColumn(c))
    case None => Ok(Frame(cols, seq(|f.rows|, i requires 0 <= i < |f.rows| => ProjectRow(f.rows[i], cols))))
  }

  // ---------------------------------------------------------------------------
  // Filtering rows: df.loc[mask]
  // ---------------------------------------------------------------------------

  /** The rows that satisfy `keep`, in their original order. */
  function FilterRows(rows: seq<Row>, keep: Row -> bool): (r: seq<Row>)
    ensures |r| <= |rows|
    ensures forall x :: x in r <==> x in rows && keep(x)
  {
    if rows == [] then []
    else (if keep(rows[0]) then [rows[0]] else []) + FilterRows(rows[1..], keep)
  }

  /** Filtering distributes over concatenation, so it keeps the relative order of the rows. */
  lemma {:induction false} FilterRowsConcat(a: seq<Row>, b: seq<Row>, keep: Row -> bool)
    ensures FilterRows(a + b, keep) == FilterRows(a, keep) + FilterRows(b, keep)
  {
    if a != [] {
      var head := if keep(a[0]) then [a[0]] else [];
      assert (a + b)[0] == a[0];
      assert (a + b)[1..] == a[1..] + b;
      FilterRowsConcat(a[1..], b, keep);
      calc {
        FilterRows(a + b, keep);
        head + FilterRows(a[1..] + b, keep);
        head + (FilterRows(a[1..], keep) + FilterRows(b, keep));
        (head + FilterRows(a[1..], keep)) + FilterRows(b, keep);
      }
    } else {
      assert a + b == b;
    }
  }

  /** A filter that every row passes changes nothing. */
  lemma {:induction false} FilterRowsAll(rows: seq<Row>, keep: Row -> bool)
    requires forall x :: x in rows ==> keep(x)
    ensures FilterRows(rows, keep) == rows
  {
    if rows != [] {
      FilterRowsAll(rows[1..], keep);
    }
  }

  /** `df.loc[mask]` with the mask computed row by row. */
  function Where(f: Frame, keep: Row -> bool): (r: Frame)
    ensures r.columns == f.columns
    ensures |r.rows| <= |f.rows|
    ensures forall x :: x in r.rows <==> x in f.rows && keep(x)
  {
    Frame(f.columns, FilterRows(f.rows, keep))
  }

  // ---------------------------------------------------------------------------
  // Assigning a column: df[c] = ...
  // ---------------------------------------------------------------------------

  /** The columns after assigning `c`: unchanged if it exists, otherwise `c` is appended. */
  function AddColumn(cols: seq<string>, c: string): (r: seq<string>)
    ensures c in r
    ensures forall d :: d in r <==> d in cols || d == c
  {
    if c in cols then cols else cols + [c]
  }

  /** `df[c] = g(row)` for every row. */
  function Assign(f: Frame, c: string, g: Row -> Cell): (r: Frame)
    ensures r.columns == AddColumn(f.columns, c)
    ensures |r.rows| == |f.rows|
    ensures forall i :: 0 <= i < |f.rows| ==> At(r.rows[i], c) == g(f.rows[i])
    ensures forall i, d :: 0 <= i < |f.rows| && d != c ==> At(r.rows[i], d) == At(f.rows[i], d)
  {
    Frame(AddColumn(f.columns, c), seq(|f.rows|, i requires 0 <= i < |f.rows| => f.rows[i][c := g(f.rows[i])]))
  }

  /** Assigning a column distributes over concatenating the rows. */
  lemma AssignConcat(cols: seq<string>, a: seq<Row>, b: seq<Row>, c: string, g: Row -> Cell)
    ensures Assign(Frame(cols, a + b), c, g).rows == Assign(Frame(cols, a), c, g).rows + Assign(Frame(cols, b), c, g).rows
  {
    var x := Assign(Frame(cols, a + b), c, g).rows;
    var y := Assign(Frame(cols, a), c, g).rows + Assign(Frame(cols, b), c, g).rows;
    assert |x| == |y|;
    forall i | 0 <= i < |x| ensures x[i] == y[i] {
      if i < |a| {
        assert (a + b)[i] == a[i];
      } else {
        assert (a + b)[i] == b[i - |a|];
      }
    }
  }

  /** The rows with column `c` set to `g(row)`, or `None` when `g` fails on some row. */
  function TryRows(rows: seq<Row>, c: string, g: Row -> Option<Cell>): (r: Option<seq<Row>>)
    ensures r.Some? <==> forall i :: 0 <= i < |rows| ==> g(rows[i]).Some?
    ensures r.Some? ==> |r.value| == |rows|
    ensures r.Some? ==> forall i :: 0 <= i < |rows| ==> r.value[i] == rows[i][c := g(rows[i]).value]
  {
    if rows == [] then Some([])
    else
      match g(rows[0])
      case None => None
      case Some(v) =>
        match TryRows(rows[1..], c, g)
        case None => None
        case Some(rest) => Some([rows[0][c := v]] + rest)
  }

  /** `df[c] = <cast of df[c]>` where the cast raises `e` as soon as one cell cannot be cast. */
  function TryAssign(f: Frame, c: string, g: Row -> Option<Cell>, e: Error): (r: Result<Frame, Error>)
    ensures r.Ok? <==> forall i :: 0 <= i < |f.rows| ==> g(f.rows[i]).Some?
    ensures r.Err? ==> r.error == e
    ensures r.Ok? ==> r.value.columns == AddColumn(f.columns, c) && |r.value.rows| == |f.rows|
    ensures r.Ok? ==> forall i :: 0 <= i < |f.rows| ==> At(r.value.rows[i], c) == g(f.rows[i]).value
    ensures r.Ok? ==> forall i, d :: 0 <= i < |f.rows| && d != c ==> At(r.value.rows[i], d) == At(f.rows[i], d)
  {
    match TryRows(f.rows, c, g)
    case None => Err(e)
    case Some(rows) => Ok(Frame(AddColumn(f.columns, c), rows))
  }

  // ---------------------------------------------------------------------------
  // Renaming a column: df.rename(columns={src: dst})
  // ---------------------------------------------------------------------------

  function RenameColumns(cols: seq<string>, src: string, dst: string): (r: seq<string>)
    ensures |r| == |cols|
    ensures forall i :: 0 <= i < |cols| ==> r[i] == (if cols[i] == src then dst else cols[i])
  {
    seq(|cols|, i requires 0 <= i < |cols| => if cols[i] == src then dst else cols[i])
  }

  /**
   * `df.rename(columns={src: dst})`; a name the frame does not have is ignored,
   * as pandas does by default.
   */
  function Rename(f: Frame, src: string, dst: string): (r: Frame)
    ensures src !in f.columns ==> r == f
    ensures |r.columns| == |f.columns| &&
      forall i :: 0 <= i < |f.columns| ==> r.columns[i] == (if f.columns[i] == src then dst else f.columns[i])
    ensures src in f.columns ==> dst in r.columns
    ensures src in f.columns && src != dst ==> src !in r.columns
    ensures forall d :: d != src && d != dst ==> (d in r.columns <==> d in f.columns)
    ensures |r.rows| == |f.rows|
    ensures forall i :: 0 <= i < |f.rows| ==> At(r.rows[i], dst) == At(f.rows[i], if src in f.columns then src else dst)
    ensures forall i, d :: 0 <= i < |f.rows| && d != src && d != dst ==> At(r.rows[i], d) == At(f.rows[i], d)
  {
    if src !in f.columns then f
    else Frame(RenameColumns(f.columns, src, dst), seq(|f.rows|, i requires 0 <= i < |f.rows| => RenameRow(f.rows[i], src, dst)))
  }

  /** One row of a renamed frame: the cell under `src` moves to `dst`. */
  function RenameRow(row: Row, src: string, dst: string): (r: Row)
    ensures At(r, dst) == At(row, src)
    ensures forall d :: d != src && d != dst ==> At(r, d) == At(row, d)
  {
    (row - {src})[dst := At(row, src)]
  }

  /** The name of column `c` after renaming `srcs[k]` to `dsts[k]`, one pair after the other. */
  function RenamedName(srcs: seq<string>, dsts: seq<string>, c: string): string
    requires |srcs| == |dsts|
  {
    if srcs == [] then c else RenamedName(srcs[1..], dsts[1..], if c == srcs[0] then dsts[0] else c)
  }

  /** No name is renamed twice, no two names get the same new name, and no new name is also renamed. */
  predicate DistinctRenames(srcs: seq<string>, dsts: seq<string>) {
    && Distinct(srcs) && Distinct(dsts)
    && forall i, j :: 0 <= i < |srcs| && 0 <= j < |dsts| ==> srcs[i] != dsts[j]
  }

  /** `df.rename(columns={srcs[0]: dsts[0], srcs[1]: dsts[1], ...})`, one pair after the other. */
  function RenameAll(f: Frame, srcs: seq<string>, dsts: seq<string>): (r: Frame)
    requires |srcs| == |dsts|
    ensures |r.rows| == |f.rows|
    decreases |srcs|
  {
    if srcs == [] then f else RenameAll(Rename(f, srcs[0], dsts[0]), srcs[1..], dsts[1..])
  }

  lemma {:induction false} RenameAllColumns(f: Frame, srcs: seq<string>, dsts: seq<string>)
    requires |srcs| == |dsts|
    decreases |srcs|
    ensures var r := RenameAll(f, srcs, dsts);
      |r.columns| == |f.columns| && forall i :: 0 <= i < |f.columns| ==> r.columns[i] == RenamedName(srcs, dsts, f.columns[i])
  {
    if srcs != [] {
      RenameAllColumns(Rename(f, srcs[0], dsts[0]), srcs[1..], dsts[1..]);
    }
  }

  /** A name that is neither renamed nor a new name keeps its place among the columns and its cells. */
  lemma {:induction false} RenameAllOthers(f: Frame, srcs: seq<string>, dsts: seq<string>, d: string)
    requires |srcs| == |dsts| && d !in srcs && d !in dsts
    decreases |srcs|
    ensures var r := RenameAll(f, srcs, dsts);
      && (d in r.columns <==> d in f.columns)
      && forall i :: 0 <= i < |f.rows| ==> At(r.rows[i], d) == At(f.rows[i], d)
  {
    if srcs != [] {
      assert d != srcs[0] && d != dsts[0];
      RenameAllOthers(Rename(f, srcs[0], dsts[0]), srcs[1..], dsts[1..], d);
    }
  }

  /**
   * With distinct names, as in a dictionary whose keys and values all differ,
   * each new name is present when its old name or itself was, and holds the
   * cells of its old name if the frame had that column (rename overwrites).
   */
  lemma {:induction false} RenameAllTarget(f: Frame, srcs: seq<string>, dsts: seq<string>, k: int)
    requires |srcs| == |dsts| && DistinctRenames(srcs, dsts) && 0 <= k < |dsts|
    decreases |srcs|
    ensures var r := RenameAll(f, srcs, dsts);
      && (dsts[k] in r.columns <==> srcs[k] in f.columns || dsts[k] in f.columns)
      && forall i :: 0 <= i < |f.rows| ==> At(r.rows[i], dsts[k]) == At(f.rows[i], if srcs[k] in f.columns then srcs[k] else dsts[k])
  {
    var g := Rename(f, srcs[0], dsts[0]);
    var s', d' := srcs[1..], dsts[1..];
    if k == 0 {
      assert dsts[0] !in s' && dsts[0] !in d' by {
        assert forall j :: 0 <= j < |s'| ==> s'[j] == srcs[j + 1];
        assert forall j :: 0 <= j < |d'| ==> d'[j] == dsts[j + 1];
      }
      RenameAllOthers(g, s', d', dsts[0]);
    } else {
      assert DistinctRenames(s', d') by {
        assert forall j :: 0 <= j < |s'| ==> s'[j] == srcs[j + 1];
        assert forall j :: 0 <= j < |d'| ==> d'[j] == dsts[j + 1];
      }
      assert srcs[k] != srcs[0] && srcs[k] != dsts[0] && dsts[k] != srcs[0] && dsts[k] != dsts[0];
      assert d'[k - 1] == dsts[k] && s'[k - 1] == srcs[k];
      RenameAllTarget(g, s', d', k - 1);
    }
  }

  // ---------------------------------------------------------------------------
  // Merging: left.merge(right, on=on, how=how, suffixes=(sx, sy))
  // ---------------------------------------------------------------------------

  datatype How = Inner | Left

  /** The columns of `cols` that are not key columns, in order. */
  function Without(cols: seq<string>, on: seq<string>): seq<string> {
    if cols == [] then []
    else (if cols[0] in on then [] else [cols[0]]) + Without(cols[1..], on)
  }

  /**
   * The column layout of a merge: every left column (a non-key column that the
   * right frame has too gets suffix `sx`), then every non-key right column
   * (suffix `sy` when the left frame has it too).
   */
  datatype Shape = Shape(left: seq<string>, right: seq<string>, on: seq<string>, sx: string, sy: string) {

    function LeftName(c: string): string {
      if c !in on && c in right then c + sx else c
    }

    function RightName(c: string): string {
      if c in left then c + sy else c
    }

    function Rest(): seq<string> {
      Without(right, on)
    }

    function Columns(): (names: seq<string>)
      ensures |names| == |left| + |Rest()|
      ensures forall i :: 0 <= i < |left| ==> names[i] == LeftName(left[i])
      ensures forall j :: 0 <= j < |Rest()| ==> names[|left| + j] == RightName(Rest()[j])
    {
      var rest := Rest();
      seq(|left|, i requires 0 <= i < |left| => LeftName(left[i]))
        + seq(|rest|, j requires 0 <= j < |rest| => RightName(rest[j]))
    }
  }

  /** The position of the first occurrence of `n` in `names`, or `|names|`. */
  function Find(names: seq<string>, n: string): (k: nat)
    ensures k <= |names|
    ensures k < |names| ==> names[k] == n
    ensures n in names ==> k < |names|
    ensures forall i :: 0 <= i < k ==> names[i] != n
  {
    if names == [] then 0
    else if names[0] == n then 0
    else 1 + Find(names[1..], n)
  }

  /** The cell of output column `n` when left row `l` is joined with right row `r`. */
  function JoinCell(s: Shape, l: Row, r: Row, n: string): Cell {
    var names := s.Columns();
    var k := Find(names, n);
    if k < |s.left| then At(l, s.left[k])
    else if k < |names| then At(r, s.Rest()[k - |s.left|])
    else None
  }

  /** The output row for a pair of rows (for an unmatched left row, `r` is the empty row). */
  function JoinRow(s: Shape, l: Row, r: Row): Row {
    map n | n in s.Columns() :: JoinCell(s, l, r, n)
  }

  /** Two rows agree on every key column (missing keys match each other, as in pandas). */
  predicate Matches(l: Row, r: Row, on: seq<string>) {
    forall k :: k in on ==> At(l, k) == At(r, k)
  }

  function MatchesOf(l: Row, rrows: seq<Row>, on: seq<string>): seq<Row> {
    FilterRows(rrows, r => Matches(l, r, on))
  }

  /** The output rows of one left row: one per matching right row, or a padded row in a left join. */
  function RowsFor(s: Shape, how: How, l: Row, rrows: seq<Row>): seq<Row> {
    var m := MatchesOf(l, rrows, s.on);
    if m != [] then seq(|m|, j requires 0 <= j < |m| => JoinRow(s, l, m[j]))
    else if how == Left then [JoinRow(s, l, map[])]
    else []
  }

  /** The output rows, grouped by left row in left order. */
  function MergeRows(s: Shape, how: How, lrows: seq<Row>, rrows: seq<Row>): seq<Row> {
    if lrows == [] then []
    else RowsFor(s, how, lrows[0], rrows) + MergeRows(s, how, lrows[1..], rrows)
  }

  function MergeShape(lf: Frame, rf: Frame, on: seq<string>, sx: string, sy: string): Shape {
    Shape(lf.columns, rf.columns, on, sx, sy)
  }

  /** `Without` keeps exactly the non-key columns. */
  lemma WithoutMembers(cols: seq<string>, on: seq<string>)
    ensures forall c :: c in Without(cols, on) <==> c in cols && c !in on
  {
  }

  /** `Without` one column at a time. */
  lemma WithoutCons(c: string, cs: seq<string>, on: seq<string>)
    ensures Without([c] + cs, on) == (if c in on then [] else [c]) + Without(cs, on)
  {
    assert ([c] + cs)[1..] == cs;
  }

  /**
   * `lf.merge(rf, on=on, how=how, suffixes=(sx, sy))`: a KeyError for a key
   * column that either side lacks, and an error whenever two output names
   * coincide (stricter than pandas, which raises only for a clash the
   * suffixes create).
   */
  function Merge(lf: Frame, rf: Frame, on: seq<string>, how: How, sx: string, sy: string): (r: Result<Frame, Error>)
    ensures r.Ok? <==> (forall k :: k in on ==> k in lf.columns && k in rf.columns)
                       && Distinct(MergeShape(lf, rf, on, sx, sy).Columns())
    ensures r.Err? && r.error.MissingColumn? ==> r.error.name in on
    ensures r.Ok? ==> r.value.columns == MergeShape(lf, rf, on, sx, sy).Columns()
  {
    match FirstMissing(on, lf.columns)
    case Some(k) => Err(MissingColumn(k))
    case None =>
      match FirstMissing(on, rf.columns)
      case Some(k) => Err(MissingColumn(k))
      case None =>
        var s := MergeShape(lf, rf, on, sx, sy);
        if !Distinct(s.Columns()) then Err(DuplicateColumns)
        else Ok(Frame(s.Columns(), MergeRows(s, how, lf.rows, rf.rows)))
  }

  /** Merge's rows are those of `MergeRows` over the two frames' rows. */
  lemma MergeRowsOf(lf: Frame, rf: Frame, on: seq<string>, how: How, sx: string, sy: string)
    requires Merge(lf, rf, on, how, sx, sy).Ok?
    ensures Merge(lf, rf, on, how, sx, sy).value.rows == MergeRows(MergeShape(lf, rf, on, sx, sy), how, lf.rows, rf.rows)
  {
  }

  lemma FindDistinct(names: seq<string>, k: nat)
    requires Distinct(names) && k < |names|
    ensures Find(names, names[k]) == k
  {
  }

  /** A position at which `c` occurs in `cs`. */
  lemma PositionOf(cs: seq<string>, c: string) returns (i: nat)
    requires c in cs
    ensures i < |cs| && cs[i] == c
  {
    i :| 0 <= i < |cs| && cs[i] == c;
  }

  /** The cell of a joined row at output position `k`. */
  lemma JoinRowAt(s: Shape, l: Row, r: Row, k: nat)
    requires Distinct(s.Columns()) && k < |s.Columns()|
    ensures k < |s.left| ==> At(JoinRow(s, l, r), s.Columns()[k]) == At(l, s.left[k])
    ensures k >= |s.left| ==> At(JoinRow(s, l, r), s.Columns()[k]) == At(r, s.Rest()[k - |s.left|])
  {
    var names := s.Columns();
    FindDistinct(names, k);
    assert names[k] in names;
    assert JoinRow(s, l, r)[names[k]] == JoinCell(s, l, r, names[k]);
  }

  /** In a joined row, every left column is found under its (possibly suffixed) name. */
  lemma JoinRowLeft(s: Shape, l: Row, r: Row, c: string)
    requires Distinct(s.Columns()) && c in s.left
    ensures At(JoinRow(s, l, r), s.LeftName(c)) == At(l, c)
  {
    var i := PositionOf(s.left, c);
    assert s.Columns()[i] == s.LeftName(c);
    JoinRowAt(s, l, r, i);
  }

  /** In a joined row, every non-key right column is found under its (possibly suffixed) name. */
  lemma JoinRowRight(s: Shape, l: Row, r: Row, c: string)
    requires Distinct(s.Columns()) && c in s.right && c !in s.on
    ensures At(JoinRow(s, l, r), s.RightName(c)) == At(r, c)
  {
    var k := RestPosition(s, c);
    JoinRowAt(s, l, r, k);
  }

  /** The output position of a non-key right column. */
  lemma RestPosition(s: Shape, c: string) returns (k: nat)
    requires c in s.right && c !in s.on
    ensures |s.left| <= k < |s.Columns()|
    ensures s.Columns()[k] == s.RightName(c) && s.Rest()[k - |s.left|] == c
  {
    var rest := s.Rest();
    WithoutMembers(s.right, s.on);
    var j := PositionOf(rest, c);
    k := |s.left| + j;
  }

  /** A key column keeps its name, and a matched joined row holds the shared key value. */
  lemma JoinRowKey(s: Shape, l: Row, r: Row, k: string)
    requires Distinct(s.Columns()) && k in s.on && k in s.left
    ensures At(JoinRow(s, l, r), k) == At(l, k)
  {
    JoinRowLeft(s, l, r, k);
  }

  /** `o` is the joined row of `l` with a matching right row, or `l`'s padded row in a left join. */
  predicate FromLeftRow(s: Shape, how: How, l: Row, rrows: seq<Row>, o: Row) {
    || (exists r :: r in rrows && Matches(l, r, s.on) && o == JoinRow(s, l, r))
    || (how == Left && (forall r :: r in rrows ==> !Matches(l, r, s.on)) && o == JoinRow(s, l, map[]))
  }

  /** Every output row of a merge comes from a left row and, unless it is a padded left-join row, a matching right row. */
  lemma {:induction false} MergeRowsSound(s: Shape, how: How, lrows: seq<Row>, rrows: seq<Row>, o: Row)
    requires o in MergeRows(s, how, lrows, rrows)
    ensures exists l :: l in lrows && FromLeftRow(s, how, l, rrows, o)
  {
    var l := lrows[0];
    if o in RowsFor(s, how, l, rrows) {
      var m := MatchesOf(l, rrows, s.on);
      if m != [] {
        var j :| 0 <= j < |m| && o == JoinRow(s, l, m[j]);
        assert m[j] in m;
        assert m[j] in rrows && Matches(l, m[j], s.on);
        assert FromLeftRow(s, how, l, rrows, o);
      } else {
        assert forall r :: r in rrows ==> !Matches(l, r, s.on) by {
          forall r | r in rrows ensures !Matches(l, r, s.on) {
            assert Matches(l, r, s.on) ==> r in m;
          }
        }
        assert FromLeftRow(s, how, l, rrows, o);
      }
    } else {
      MergeRowsSound(s, how, lrows[1..], rrows, o);
      var l' :| l' in lrows[1..] && FromLeftRow(s, how, l', rrows, o);
      assert l' in lrows;
    }
  }

  /** Every matching pair of rows produces its joined row. */
  lemma {:induction false} MergeRowsComplete(s: Shape, how: How, lrows: seq<Row>, rrows: seq<Row>, l: Row, r: Row)
    requires l in lrows && r in rrows && Matches(l, r, s.on)
    ensures JoinRow(s, l, r) in MergeRows(s, how, lrows, rrows)
  {
    if l == lrows[0] {
      var m := MatchesOf(l, rrows, s.on);
      assert r in m;
      var j :| 0 <= j < |m| && m[j] == r;
      assert RowsFor(s, how, l, rrows)[j] == JoinRow(s, l, r);
    } else {
      MergeRowsComplete(s, how, lrows[1..], rrows, l, r);
    }
  }

  /** In a left join, every left row produces at least one output row. */
  lemma {:induction false} MergeRowsKeepsLeft(s: Shape, lrows: seq<Row>, rrows: seq<Row>, l: Row)
    requires l in lrows
    ensures exists r :: JoinRow(s, l, r) in MergeRows(s, Left, lrows, rrows)
  {
    if l == lrows[0] {
      var m := MatchesOf(l, rrows, s.on);
      if m != [] {
        assert RowsFor(s, Left, l, rrows)[0] == JoinRow(s, l, m[0]);
      } else {
        assert RowsFor(s, Left, l, rrows)[0] == JoinRow(s, l, map[]);
      }
    } else {
      MergeRowsKeepsLeft(s, lrows[1..], rrows, l);
    }
  }

  // ---------------------------------------------------------------------------
  // Merges whose two sides share only their key columns
  // ---------------------------------------------------------------------------

  /** The two sides of `s` have no column in common besides the key, so no suffix is ever applied. */
  predicate Disjoint(s: Shape) {
    forall c :: c in s.left && c in s.right ==> c in s.on
  }

  /** Dropping the key columns keeps distinct names distinct. */
  lemma {:induction false} DistinctWithout(cols: seq<string>, on: seq<string>)
    requires Distinct(cols)
    ensures Distinct(Without(cols, on))
  {
    if cols != [] {
      assert Distinct(cols[1..]) by {
        forall i, j | 0 <= i < j < |cols[1..]| ensures cols[1..][i] != cols[1..][j] {
          assert cols[1..][i] == cols[i + 1] && cols[1..][j] == cols[j + 1];
        }
      }
      DistinctWithout(cols[1..], on);
      WithoutMembers(cols[1..], on);
      assert cols[0] !in cols[1..];
      var head: seq<string> := if cols[0] in on then [] else [cols[0]];
      var rest := Without(cols[1..], on);
      assert Without(cols, on) == head + rest;
      forall i, j | 0 <= i < j < |head + rest| ensures (head + rest)[i] != (head + rest)[j] {
        if i < |head| {
          assert (head + rest)[j] in rest;
        }
      }
    }
  }

  /** Two duplicate-free lists with no name in common concatenate to a duplicate-free list. */
  lemma DistinctConcat(a: seq<string>, b: seq<string>)
    requires Distinct(a) && Distinct(b) && forall x :: x in a ==> x !in b
    ensures Distinct(a + b)
  {
    forall i, j | 0 <= i < j < |a + b| ensures (a + b)[i] != (a + b)[j] {
      if j < |a| {
        assert (a + b)[i] == a[i] && (a + b)[j] == a[j];
      } else if i < |a| {
        assert (a + b)[i] == a[i] && a[i] in a;
        assert (a + b)[j] == b[j - |a|] && b[j - |a|] in b;
      } else {
        assert (a + b)[i] == b[i - |a|] && (a + b)[j] == b[j - |a|];
      }
    }
  }

  /** When the sides share only the key, no output name carries a suffix. */
  lemma DisjointNames(s: Shape)
    requires Disjoint(s)
    ensures s.Columns() == s.left + s.Rest()
  {
    var rest := s.Rest();
    WithoutMembers(s.right, s.on);
    var names := s.Columns();
    forall i | 0 <= i < |s.left| ensures names[i] == s.left[i] {
      assert s.left[i] in s.left;
    }
    forall j | 0 <= j < |rest| ensures names[|s.left| + j] == rest[j] {
      assert rest[j] in rest;
    }
    assert names == s.left + rest;
  }

  /**
   * A merge whose sides share only the key: every left column keeps its name,
   * followed by the right side's non-key columns, and the names are distinct.
   */
  lemma DisjointShape(s: Shape)
    requires Disjoint(s) && Distinct(s.left) && Distinct(s.right)
    ensures s.Columns() == s.left + s.Rest()
    ensures Distinct(s.Columns())
    ensures forall c :: c in s.Columns() <==> c in s.left || (c in s.right && c !in s.on)
  {
    DisjointNames(s);
    WithoutMembers(s.right, s.on);
    DistinctWithout(s.right, s.on);
    DistinctConcat(s.left, s.Rest());
  }

  /** Output row `o` joins left row `l` with right row `r`: it matches on the key and carries both rows' columns. */
  predicate JoinedFrom(o: Row, l: Row, r: Row, lcols: seq<string>, rcols: seq<string>, on: seq<string>) {
    && Matches(l, r, on)
    && (forall c :: c in lcols ==> At(o, c) == At(l, c))
    && (forall c :: c in rcols && c !in on ==> At(o, c) == At(r, c))
  }

  /** The joined row of a merge whose sides share only the key. */
  lemma DisjointJoinRow(s: Shape, l: Row, r: Row)
    requires Disjoint(s) && Distinct(s.Columns()) && Matches(l, r, s.on)
    ensures JoinedFrom(JoinRow(s, l, r), l, r, s.left, s.right, s.on)
  {
    forall c | c in s.left ensures At(JoinRow(s, l, r), c) == At(l, c) {
      JoinRowLeft(s, l, r, c);
    }
    forall c | c in s.right && c !in s.on ensures At(JoinRow(s, l, r), c) == At(r, c) {
      JoinRowRight(s, l, r, c);
    }
  }

  /** Every row of an inner merge whose sides share only the key joins a left row with a matching right row. */
  lemma DisjointMergeSound(lf: Frame, rf: Frame, on: seq<string>, sx: string, sy: string, o: Row)
    requires Merge(lf, rf, on, Inner, sx, sy).Ok? && Disjoint(MergeShape(lf, rf, on, sx, sy))
    requires o in Merge(lf, rf, on, Inner, sx, sy).value.rows
    ensures exists l, r :: l in lf.rows && r in rf.rows && JoinedFrom(o, l, r, lf.columns, rf.columns, on)
  {
    var s := MergeShape(lf, rf, on, sx, sy);
    MergeRowsOf(lf, rf, on, Inner, sx, sy);
    MergeRowsSound(s, Inner, lf.rows, rf.rows, o);
    var l :| l in lf.rows && FromLeftRow(s, Inner, l, rf.rows, o);
    var r :| r in rf.rows && Matches(l, r, s.on) && o == JoinRow(s, l, r);
    DisjointJoinRow(s, l, r);
  }

  /** An inner merge whose sides share only the key joins every left row with every matching right row. */
  lemma DisjointMergeComplete(lf: Frame, rf: Frame, on: seq<string>, sx: string, sy: string, l: Row, r: Row)
    requires Merge(lf, rf, on, Inner, sx, sy).Ok? && Disjoint(MergeShape(lf, rf, on, sx, sy))
    requires l in lf.rows && r in rf.rows && Matches(l, r, on)
    ensures exists o :: o in Merge(lf, rf, on, Inner, sx, sy).value.rows && JoinedFrom(o, l, r, lf.columns, rf.columns, on)
  {
    var s := MergeShape(lf, rf, on, sx, sy);
    MergeRowsOf(lf, rf, on, Inner, sx, sy);
    MergeRowsComplete(s, Inner, lf.rows, rf.rows, l, r);
    DisjointJoinRow(s, l, r);
  }
}
