/** The exploration script: normalising the filled score table and binning its
    last column into five right-closed intervals over [0, 1]. */
module Explore {
  import opened Wrappers
  import opened Seqs

  const AuthorName := "author_name"
  const AuthorId := "author_id"
  const Categories := "categories"
  const MissingAuthorName := "The input CSV file must contain an 'author_name' column."
  const DuplicateAuthorId := "cannot insert author_id, already exists"
  const NotNumeric := "the last column is not numeric"

  /** A column's values: numbers, text, or the bin codes `pd.cut` produces
      (a missing code is a value that falls in no bin). */
  datatype ColumnData =
    | Numeric(values: seq<real>)
    | Text(texts: seq<string>)
    | Categorical(codes: seq<Option<nat>>)

  datatype Column = Column(name: string, data: ColumnData)

  function Height(data: ColumnData): nat {
    match data
    case Numeric(values) => |values|
    case Text(texts) => |texts|
    case Categorical(codes) => |codes|
  }

  function Names(columns: seq<Column>): (names: seq<string>)
    ensures |names| == |columns|
    ensures forall k :: 0 <= k < |columns| ==> names[k] == columns[k].name
  {
    seq(|columns|, k requires 0 <= k < |columns| => columns[k].name)
  }

  /** A DataFrame: `rows` rows, and columns with distinct labels, each holding
      one value per row. */
  class Frame {
    var rows: nat
    var columns: seq<Column>

    predicate Valid()
      reads this
    {
      && (forall k :: 0 <= k < |columns| ==> Height(columns[k].data) == rows)
      && AllDistinct(Names(columns))
    }

    constructor (rows: nat, columns: seq<Column>)
      requires forall k :: 0 <= k < |columns| ==> Height(columns[k].data) == rows
      requires AllDistinct(Names(columns))
      ensures this.rows == rows && this.columns == columns
      ensures Valid()
    {
      this.rows := rows;
      this.columns := columns;
    }
  }

  // ---------------------------------------------------------------------------
  // Normalisation

  /** The smallest value of a non-empty column (`Series.min()`). */
  function MinOf(values: seq<real>): (lo: real)
    requires values != []
    ensures forall k :: 0 <= k < |values| ==> lo <= values[k]
    ensures exists k :: 0 <= k < |values| && lo == values[k]
    decreases |values|
  {
    if |values| == 1 then values[0]
    else
      var rest := MinOf(values[1..]);
      assert forall k :: 1 <= k < |values| ==> values[k] == values[1..][k - 1];
      if values[0] <= rest then values[0] else rest
  }

  /** The largest value of a non-empty column (`Series.max()`). */
  function MaxOf(values: seq<real>): (hi: real)
    requires values != []
    ensures forall k :: 0 <= k < |values| ==> values[k] <= hi
    ensures exists k :: 0 <= k < |values| && hi == values[k]
    decreases |values|
  {
    if |values| == 1 then values[0]
    else
      var rest := MaxOf(values[1..]);
      assert forall k :: 1 <= k < |values| ==> values[k] == values[1..][k - 1];
      if values[0] >= rest then values[0] else rest
  }

  /** The test `max_val > min_val`; an empty column has NaN bounds, and the
      comparison is false. */
  predicate Spread(values: seq<real>): (spread: bool)
    ensures spread ==> exists i, j :: 0 <= i < |values| && 0 <= j < |values| && values[i] < values[j]
  {
    values != [] && MaxOf(values) > MinOf(values)
  }

  /** The shift from [-1, 1] to [0, 1]. */
  function Shift(v: real): (w: real)
    ensures 2.0 * w - 1.0 == v
    ensures -1.0 <= v <= 1.0 ==> 0.0 <= w <= 1.0
  {
    (v + 1.0) / 2.0
  }

  /** One column of the loop over `columns[1:]`: a numeric column with spread is
      shifted, a numeric column without spread becomes all 0.5, any other
      column is left alone. */
  function NormalizeColumn(column: Column): (r: Column)
    ensures r.name == column.name && Height(r.data) == Height(column.data)
  {
    match column.data
    case Numeric(values) =>
      if Spread(values) then Column(column.name, Numeric(seq(|values|, k requires 0 <= k < |values| => Shift(values[k]))))
      else Column(column.name, Numeric(seq(|values|, k => 0.5)))
    case _ => column
  }

  /** The column `range(n)` inserted at position 0. */
  function IdColumn(rows: nat): (r: Column)
    ensures r.name == AuthorId && Height(r.data) == rows
  {
    Column(AuthorId, Numeric(seq(rows, k => k as real)))
  }

  /** A column has spread exactly when two of its values differ. */
  lemma SpreadIffNotConstant(values: seq<real>)
    ensures Spread(values) <==> exists i, j :: 0 <= i < |values| && 0 <= j < |values| && values[i] != values[j]
  {
    if values != [] && !Spread(values) {
      forall i, j | 0 <= i < |values| && 0 <= j < |values|
        ensures values[i] == values[j]
      {
        assert MinOf(values) <= values[i] <= MaxOf(values);
        assert MinOf(values) <= values[j] <= MaxOf(values);
      }
    }
  }

  /** The documented mapping: -1 goes to 0, 0 to 0.5 and 1 to 1, and [-1, 1]
      lands in [0, 1] in the same order. */
  lemma ShiftMapsUnitRange(v: real, w: real)
    ensures Shift(-1.0) == 0.0 && Shift(0.0) == 0.5 && Shift(1.0) == 1.0
    ensures -1.0 <= v <= 1.0 ==> 0.0 <= Shift(v) <= 1.0
    ensures v < w ==> Shift(v) < Shift(w)
  {
  }

  /** A constant column becomes all 0.5, e.g. a column of 0.3s. */
  lemma ConstantColumnBecomesHalf(name: string, values: seq<real>, c: real)
    requires forall k :: 0 <= k < |values| ==> values[k] == c
    ensures NormalizeColumn(Column(name, Numeric(values))) == Column(name, Numeric(seq(|values|, k => 0.5)))
  {
    SpreadIffNotConstant(values);
  }

  /** Every numeric column with values in [-1, 1] comes out in [0, 1]. */
  lemma NormalizedInUnitRange(column: Column)
    requires column.data.Numeric?
    requires forall k :: 0 <= k < |column.data.values| ==> -1.0 <= column.data.values[k] <= 1.0
    ensures var r := NormalizeColumn(column);
      forall k :: 0 <= k < |r.data.values| ==> 0.0 <= r.data.values[k] <= 1.0
  {
  }

  /** `drop(columns=[name])` on distinct labels: every other column stays, in
      order. */
  function DropColumn(columns: seq<Column>, name: string): (r: seq<Column>)
    requires AllDistinct(Names(columns))
    ensures name in Names(columns) ==> |r| == |columns| - 1
    ensures name !in Names(columns) ==> r == columns
    ensures name !in Names(r) && AllDistinct(Names(r))
    ensures forall c :: c in r <==> c in columns && c.name != name
    ensures name in Names(columns) ==> var k := FirstIndex(Names(columns), name);
      columns[k].name == name && r == columns[..k] + columns[k + 1..]
  {
    match IndexOf(Names(columns), name)
    case None => columns
    case Some(at) =>
      RemoveAt(columns, at);
      columns[..at] + columns[at + 1..]
  }

  lemma RemoveAt(columns: seq<Column>, at: nat)
    requires at < |columns| && AllDistinct(Names(columns))
    ensures var r, name := columns[..at] + columns[at + 1..], columns[at].name;
      && name !in Names(r) && AllDistinct(Names(r))
      && forall c :: c in r <==> c in columns && c.name != name
  {
    var r, name := columns[..at] + columns[at + 1..], columns[at].name;
    var names := Names(columns);
    assert Names(r) == names[..at] + names[at + 1..];
    forall c | c in columns && c.name != name
      ensures c in r
    {
      var k :| 0 <= k < |columns| && columns[k] == c;
      if k < at { assert r[k] == c; } else { assert r[k - 1] == c; }
    }
    forall c | c in r
      ensures c.name != name
    {
      var k :| 0 <= k < |r| && r[k] == c;
      if k < at { assert names[k] != names[at]; } else { assert names[k + 1] != names[at]; }
    }
  }

  /** Inserting a column under a new label at the front and then dropping another
      label is the same as dropping first. */
  lemma DropAfterInsert(first: Column, columns: seq<Column>, name: string)
    requires AllDistinct(Names(columns)) && first.name !in Names(columns) && first.name != name
    ensures AllDistinct(Names([first] + columns))
    ensures DropColumn([first] + columns, name) == [first] + DropColumn(columns, name)
  {
    var all := [first] + columns;
    assert Names(all) == [first.name] + Names(columns);
    assert Names(all)[1..] == Names(columns);
    var found := IndexOf(Names(columns), name);
    assert IndexOf(Names(all), name) == if found.Some? then Some(found.value + 1) else None;
    if found.Some? {
      DropFoundAfterInsert(first, columns, name, found.value);
    }
  }

  lemma DropFoundAfterInsert(first: Column, columns: seq<Column>, name: string, at: nat)
    requires AllDistinct(Names(columns)) && AllDistinct(Names([first] + columns))
    requires IndexOf(Names(columns), name) == Some(at)
    requires IndexOf(Names([first] + columns), name) == Some(at + 1)
    ensures DropColumn([first] + columns, name) == [first] + DropColumn(columns, name)
  {
    var all := [first] + columns;
    assert all[..at + 1] == [first] + columns[..at];
    assert all[at + 2..] == columns[at + 1..];
    AppendAssociative([first], columns[..at], columns[at + 1..]);
  }

  /** Inserting the id column and dropping a label keeps every column at the
      frame's height. */
  lemma DroppedHeights(rows: nat, columns: seq<Column>)
    requires AllDistinct(Names(columns))
    requires forall k :: 0 <= k < |columns| ==> Height(columns[k].data) == rows
    ensures var out := [IdColumn(rows)] + DropColumn(columns, AuthorName);
      forall j :: 0 <= j < |out| ==> Height(out[j].data) == rows
  {
    var rest := DropColumn(columns, AuthorName);
    var out := [IdColumn(rows)] + rest;
    forall j | 0 <= j < |out|
      ensures Height(out[j].data) == rows
    {
      if j > 0 {
        assert out[j] == rest[j - 1] && out[j] in rest;
        var i :| 0 <= i < |columns| && columns[i] == out[j];
      }
    }
  }

  /** The loop over `columns[1:]` of a frame. */
  method NormalizeColumns(frame: Frame)
    requires frame.Valid()
    modifies frame
    ensures frame.Valid() && frame.rows == old(frame.rows)
    ensures |frame.columns| == old(|frame.columns|)
    ensures frame.columns != [] ==> frame.columns[0] == old(frame.columns[0])
    ensures forall k :: 1 <= k < |frame.columns| ==> frame.columns[k] == NormalizeColumn(old(frame.columns[k]))
  {
    var k := 1;
    while k < |frame.columns|
      invariant 1 <= k
      invariant frame.rows == old(frame.rows)
      invariant |frame.columns| == old(|frame.columns|)
      invariant Names(frame.columns) == old(Names(frame.columns))
      invariant forall j :: 0 <= j < |frame.columns| ==> Height(frame.columns[j].data) == frame.rows
      invariant frame.columns != [] ==> frame.columns[0] == old(frame.columns[0])
      invariant forall j :: 1 <= j < k && j < |frame.columns| ==> frame.columns[j] == NormalizeColumn(old(frame.columns[j]))
      invariant forall j :: k <= j < |frame.columns| ==> frame.columns[j] == old(frame.columns[j])
    {
      frame.columns := frame.columns[k := NormalizeColumn(frame.columns[k])];
      k := k + 1;
    }
  }

  /** `normalize_table`: on a copy, `author_id` = 0, 1, ..., n-1 goes in front,
      `author_name` goes out, and every later column is normalised; the input
      frame is left as it was. */
  method NormalizeTable(table: Frame) returns (r: Result<Frame, string>)
    requires table.Valid()
    ensures r.Failure? <==> AuthorName !in Names(table.columns) || AuthorId in Names(table.columns)
    ensures AuthorName !in Names(table.columns) ==> r == Failure(MissingAuthorName)
    ensures r.Success? ==> fresh(r.value)
    ensures r.Success? ==> var out, rest := r.value, DropColumn(table.columns, AuthorName);
      && out.Valid() && out.rows == table.rows
      && |out.columns| == |table.columns|
      && out.columns[0] == IdColumn(table.rows)
      && AuthorName !in Names(out.columns)
      && forall k :: 1 <= k < |out.columns| ==> out.columns[k] == NormalizeColumn(rest[k - 1])
  {
    if AuthorName !in Names(table.columns) {
      return Failure(MissingAuthorName);
    }
    var copy := new Frame(table.rows, table.columns);
    if AuthorId in Names(copy.columns) {
      return Failure(DuplicateAuthorId);
    }
    DropAfterInsert(IdColumn(copy.rows), copy.columns, AuthorName);
    copy.columns := [IdColumn(copy.rows)] + copy.columns;
    copy.columns := DropColumn(copy.columns, AuthorName);
    ghost var rest := DropColumn(table.columns, AuthorName);
    assert copy.columns == [IdColumn(table.rows)] + rest;
    DroppedHeights(table.rows, table.columns);
    assert copy.Valid();
    NormalizeColumns(copy);
    return Success(copy);
  }

  // ---------------------------------------------------------------------------
  // Binning

  /** `np.linspace(0, 1, 6)`, written as exact reals. */
  const Edges: seq<real> := [0.0, 0.2, 0.4, 0.6, 0.8, 1.0]
  /** The labels `f"{bins[i]:.1f} ~ {bins[i + 1]:.1f}"` of the five bins. */
  const BinLabels: seq<string> := ["0.0 ~ 0.2", "0.2 ~ 0.4", "0.4 ~ 0.6", "0.6 ~ 0.8", "0.8 ~ 1.0"]

  /** `edges.searchsorted(v, side="left")` on ascending edges: how many edges
      lie strictly below `v`. */
  function EdgesBelow(edges: seq<real>, v: real): (n: nat)
    requires Ascending(edges)
    ensures n <= |edges|
    ensures forall k :: 0 <= k < n ==> edges[k] < v
    ensures forall k :: n <= k < |edges| ==> v <= edges[k]
    decreases |edges|
  {
    if edges == [] then 0
    else (if edges[0] < v then 1 else 0) + EdgesBelow(edges[1..], v)
  }

  predicate Ascending(edges: seq<real>) {
    forall i, j :: 0 <= i < j < |edges| ==> edges[i] <= edges[j]
  }

  /** `pd.cut(v, Edges, include_lowest=True)` as a bin code: right-closed bins,
      the lowest edge itself counted in the first bin, and no bin outside. */
  function Bin(v: real): (code: Option<nat>)
    ensures code.Some? ==> code.value < |BinLabels|
  {
    AscendingEdges();
    var ids := if v == Edges[0] then 1 else EdgesBelow(Edges, v);
    if ids == 0 || ids == |Edges| then None else Some(ids - 1)
  }

  /** Bin `k` as an interval: [0, 0.2] for the first, (a, b] for the others. */
  predicate InBin(v: real, k: nat)
    requires k < |BinLabels|
  {
    if k == 0 then Edges[0] <= v <= Edges[1] else Edges[k] < v <= Edges[k + 1]
  }

  lemma EdgesBelowValue(v: real)
    ensures EdgesBelow(Edges, v) ==
      if v <= 0.0 then 0 else if v <= 0.2 then 1 else if v <= 0.4 then 2
      else if v <= 0.6 then 3 else if v <= 0.8 then 4 else if v <= 1.0 then 5 else 6
  {
    AscendingEdges();
    var n := EdgesBelow(Edges, v);
    assert n <= 6;
  }

  lemma AscendingEdges()
    ensures Ascending(Edges)
  {
  }

  /** A value gets code `k` exactly when it lies in bin `k`, and no code
      exactly when it lies outside [0, 1]. */
  lemma BinIsInterval(v: real)
    ensures forall k: nat :: k < |BinLabels| ==> (Bin(v) == Some(k) <==> InBin(v, k))
    ensures Bin(v).None? <==> v < 0.0 || v > 1.0
  {
    EdgesBelowValue(v);
  }

  /** The boundary cases: 0 and 0.2 both go to the first bin, 1 to the last,
      and a value just above 0.2 to the second. */
  lemma BinBoundaries()
    ensures Bin(0.0) == Some(0) && Bin(0.2) == Some(0) && Bin(0.21) == Some(1) && Bin(1.0) == Some(4)
    ensures Bin(-0.1) == None && Bin(1.1) == None
  {
    BinOf(0.2);
    BinOf(0.21);
    BinOf(1.0);
    BinOf(-0.1);
    BinOf(1.1);
  }

  /** `Bin` in closed form. */
  lemma BinOf(v: real)
    ensures Bin(v) ==
      if v < 0.0 then None else if v <= 0.2 then Some(0) else if v <= 0.4 then Some(1)
      else if v <= 0.6 then Some(2) else if v <= 0.8 then Some(3) else if v <= 1.0 then Some(4) else None
  {
    EdgesBelowValue(v);
  }

  /** Every value a normalised numeric column can hold gets a bin. */
  lemma NormalizedValuesAreBinned(column: Column)
    requires column.data.Numeric?
    requires forall k :: 0 <= k < |column.data.values| ==> -1.0 <= column.data.values[k] <= 1.0
    ensures var r := NormalizeColumn(column);
      forall k :: 0 <= k < |r.data.values| ==> Bin(r.data.values[k]).Some?
  {
    var r := NormalizeColumn(column);
    NormalizedInUnitRange(column);
    forall k | 0 <= k < |r.data.values|
      ensures Bin(r.data.values[k]).Some?
    {
      BinIsInterval(r.data.values[k]);
    }
  }

  /** The bin codes of a column. */
  function Categorize(values: seq<real>): (codes: seq<Option<nat>>)
    ensures |codes| == |values|
    ensures forall k :: 0 <= k < |codes| ==> (codes[k].None? <==> values[k] < 0.0 || values[k] > 1.0)
    ensures forall k, b: nat :: 0 <= k < |codes| && b < |BinLabels| ==>
      (codes[k] == Some(b) <==> InBin(values[k], b))
  {
    ValuesAreIntervals(values);
    seq(|values|, k requires 0 <= k < |values| => Bin(values[k]))
  }

  lemma ValuesAreIntervals(values: seq<real>)
    ensures forall k :: 0 <= k < |values| ==> (Bin(values[k]).None? <==> values[k] < 0.0 || values[k] > 1.0)
    ensures forall k, b: nat :: 0 <= k < |values| && b < |BinLabels| ==>
      (Bin(values[k]) == Some(b) <==> InBin(values[k], b))
  {
    forall k | 0 <= k < |values| {
      BinIsInterval(values[k]);
    }
  }

  /** `value_counts().sort_index()` on the codes: one count per bin, in bin
      order, zero counts included, missing codes not counted. */
  function Counts(codes: seq<Option<nat>>): (counts: seq<nat>)
    ensures |counts| == |BinLabels|
  {
    seq(|BinLabels|, k requires 0 <= k < |BinLabels| => Occurrences(codes, Some(k as nat)))
  }

  function Total(counts: seq<nat>): nat
    decreases |counts|
  {
    if counts == [] then 0 else counts[0] + Total(counts[1..])
  }

  /** How many values lie in [0, 1]. */
  function InUnitCount(values: seq<real>): nat
    decreases |values|
  {
    if values == [] then 0
    else (if 0.0 <= values[0] <= 1.0 then 1 else 0) + InUnitCount(values[1..])
  }

  lemma TotalOfFive(counts: seq<nat>)
    requires |counts| == 5
    ensures Total(counts) == counts[0] + counts[1] + counts[2] + counts[3] + counts[4]
  {
    var c := counts;
    assert Total(c) == c[0] + Total(c[1..]);
    assert Total(c[1..]) == c[1] + Total(c[2..]) by { assert c[1..][1..] == c[2..]; }
    assert Total(c[2..]) == c[2] + Total(c[3..]) by { assert c[2..][1..] == c[3..]; }
    assert Total(c[3..]) == c[3] + Total(c[4..]) by { assert c[3..][1..] == c[4..]; }
    assert Total(c[4..]) == c[4] + Total(c[5..]) by { assert c[4..][1..] == c[5..]; }
    assert c[5..] == [];
  }

  /** The counts add up to the number of values in [0, 1]. */
  lemma {:induction false} CountsTotal(values: seq<real>)
    ensures Total(Counts(Categorize(values))) == InUnitCount(values)
    decreases |values|
  {
    var codes := Categorize(values);
    TotalOfFive(Counts(codes));
    if values != [] {
      var tail := Categorize(values[1..]);
      assert codes[1..] == tail;
      CountsTotal(values[1..]);
      TotalOfFive(Counts(tail));
      BinIsInterval(values[0]);
      forall k | 0 <= k < 5
        ensures Counts(codes)[k] == (if codes[0] == Some(k) then 1 else 0) + Counts(tail)[k]
      {
      }
    }
  }

  /** The last column's values, when there is a last column and it is numeric. */
  function LastValues(columns: seq<Column>): (values: Option<seq<real>>)
    ensures values.Some? <==> columns != [] && columns[|columns| - 1].data.Numeric?
  {
    if columns == [] then None
    else match columns[|columns| - 1].data
      case Numeric(values) => Some(values)
      case _ => None
  }

  /** `table[name] = ...`: replaces the column of that name in place, or
      appends a new one at the end. */
  function SetColumn(columns: seq<Column>, column: Column): (r: seq<Column>)
    ensures column in r
    ensures column.name in Names(columns) ==> |r| == |columns|
    ensures column.name !in Names(columns) ==> r == columns + [column]
  {
    match IndexOf(Names(columns), column.name)
    case Some(k) =>
      var r := columns[k := column];
      assert r[k] == column;
      r
    case None => columns + [column]
  }

  lemma SetColumnValid(columns: seq<Column>, column: Column, rows: nat)
    requires forall k :: 0 <= k < |columns| ==> Height(columns[k].data) == rows
    requires AllDistinct(Names(columns))
    requires Height(column.data) == rows
    ensures var r := SetColumn(columns, column);
      && (forall k :: 0 <= k < |r| ==> Height(r[k].data) == rows)
      && AllDistinct(Names(r))
      && (forall k :: 0 <= k < |r| && r[k].name != column.name ==> k < |columns| && r[k] == columns[k])
  {
    var r := SetColumn(columns, column);
    match IndexOf(Names(columns), column.name)
    case Some(at) =>
      assert Names(r) == Names(columns)[at := column.name];
    case None =>
      assert Names(r) == Names(columns) + [column.name];
  }

  /** Lines 59-67 of `analyze_and_visualize_last_column`: bins the last column,
      stores the codes as `categories` in the caller's frame and returns the
      per-bin counts; a frame without columns or with a non-numeric last column
      is refused and left as it was. */
  method AnalyzeLastColumn(table: Frame) returns (r: Result<seq<nat>, string>)
    requires table.Valid()
    modifies table
    ensures table.Valid() && table.rows == old(table.rows)
    ensures r.Failure? <==> old(LastValues(table.columns)).None?
    ensures r.Failure? ==> table.columns == old(table.columns)
    ensures r.Success? ==> var codes := Categorize(old(LastValues(table.columns)).value);
      && table.columns == SetColumn(old(table.columns), Column(Categories, Categorical(codes)))
      && r.value == Counts(codes)
      && Total(r.value) == InUnitCount(old(LastValues(table.columns)).value)
  {
    var last := LastValues(table.columns);
    if last.None? {
      return Failure(NotNumeric);
    }
    var values := last.value;
    assert |values| == Height(table.columns[|table.columns| - 1].data);
    var codes := Categorize(values);
    SetColumnValid(table.columns, Column(Categories, Categorical(codes)), table.rows);
    table.columns := SetColumn(table.columns, Column(Categories, Categorical(codes)));
    CountsTotal(values);
    return Success(Counts(codes));
  }
}
