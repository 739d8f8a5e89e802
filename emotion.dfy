/** The sentiment script: an author x month table of concatenated comment texts,
    a signed sentiment score per cell, and a forward fill of the missing scores
    along each author's row. */
module Emotion {
  import opened Wrappers
  import opened Seqs
  import opened Reddit

  /** Characters of a cell text handed to the classifier. */
  const TextBudget: nat := 512
  /** The classifier label that keeps the score's sign. */
  const PositiveLabel := "POSITIVE"

  /** The table the script passes from step to step: its first column
      (`author_name`) is `authors`, its other columns are labelled by `months`,
      and `cells[i, c]` is the value of author `authors[i]` in month `months[c]`. */
  class AuthorTable<T> {
    const authors: seq<string>
    const months: seq<YearMonth>
    const cells: array2<T>

    predicate Valid() {
      cells.Length0 == |authors| && cells.Length1 == |months|
    }

    constructor (authors: seq<string>, months: seq<YearMonth>, cells: array2<T>)
      requires cells.Length0 == |authors| && cells.Length1 == |months|
      ensures this.authors == authors && this.months == months && this.cells == cells
      ensures Valid()
    {
      this.authors := authors;
      this.months := months;
      this.cells := cells;
    }
  }

  /** Row `i` of a grid, as `iterrows` hands it over. */
  function RowOf<T>(cells: array2<T>, i: nat): (row: seq<T>)
    requires i < cells.Length0
    reads cells
    ensures |row| == cells.Length1
    ensures forall c :: 0 <= c < |row| ==> row[c] == cells[i, c]
  {
    seq(cells.Length1, c requires 0 <= c < cells.Length1 reads cells => cells[i, c])
  }

  // ---------------------------------------------------------------------------
  // Building the table

  function ByAuthor(author: string): Comment -> bool {
    (c: Comment) => c.author == author
  }

  /** `data[data["author_name"] == author]`, in data order. */
  function RowsOf(data: seq<Comment>, author: string): seq<Comment> {
    Filter(data, ByAuthor(author))
  }

  /** A row contributes its text to month `m` when it was posted in `m` and its
      text is present. */
  predicate Contributes(row: Comment, m: YearMonth) {
    row.created.Some? && MonthOf(row.created.value) == m && row.text.Some?
  }

  /** The texts an author's rows contribute to month `m`, in row order. */
  function MonthTexts(rows: seq<Comment>, m: YearMonth): (texts: seq<string>)
    ensures |texts| <= |rows|
    ensures forall t :: t in texts <==>
      exists k :: 0 <= k < |rows| && Contributes(rows[k], m) && rows[k].text.value == t
    decreases |rows|
  {
    if rows == [] then []
    else (if Contributes(rows[0], m) then [rows[0].text.value] else []) + MonthTexts(rows[1..], m)
  }

  /** `" " + t1 + " " + t2 + ... + " " + tn`. */
  function JoinSpaced(texts: seq<string>): string
    decreases |texts|
  {
    if texts == [] then "" else " " + texts[0] + JoinSpaced(texts[1..])
  }

  /** A cell's final content: missing when no text went into it. */
  function CellText(texts: seq<string>): (cell: Option<string>)
    ensures cell.None? <==> texts == []
  {
    if texts == [] then None else Some(JoinSpaced(texts))
  }

  /** One more row adds at most its own text at the end. */
  lemma {:induction false} MonthTextsSnoc(rows: seq<Comment>, row: Comment, m: YearMonth)
    ensures MonthTexts(rows + [row], m)
         == MonthTexts(rows, m) + (if Contributes(row, m) then [row.text.value] else [])
    decreases |rows|
  {
    if rows == [] {
      assert [row][1..] == [];
    } else {
      assert (rows + [row])[1..] == rows[1..] + [row];
      MonthTextsSnoc(rows[1..], row, m);
    }
  }

  /** Appending with a separating space extends the joined text. */
  lemma {:induction false} JoinSpacedSnoc(texts: seq<string>, t: string)
    ensures JoinSpaced(texts + [t]) == JoinSpaced(texts) + " " + t
    decreases |texts|
  {
    if texts == [] {
      assert [t][1..] == [];
    } else {
      assert (texts + [t])[1..] == texts[1..] + [t];
      JoinSpacedSnoc(texts[1..], t);
    }
  }

  /** The cell update `("" if missing else current) + " " + text`. */
  lemma CellTextSnoc(texts: seq<string>, t: string)
    ensures CellText(texts + [t]) == Some(CellText(texts).GetOr("") + " " + t)
  {
    JoinSpacedSnoc(texts, t);
    if texts == [] {
      assert JoinSpaced([t]) == " " + t + JoinSpaced([]);
    }
  }

  /** A row without text, or from a month that has no column, leaves every
      cell as it was. */
  lemma SkippedRowChangesNothing(rows: seq<Comment>, row: Comment, months: seq<YearMonth>)
    requires row.text.None? || (row.created.Some? && MonthOf(row.created.value) !in months)
    ensures forall m :: m in months ==> MonthTexts(rows + [row], m) == MonthTexts(rows, m)
  {
    forall m | m in months
      ensures MonthTexts(rows + [row], m) == MonthTexts(rows, m)
    {
      MonthTextsSnoc(rows, row, m);
    }
  }

  /** `construct_author_table`: one row per selected author, one column per
      month start in the window; each cell joins, with a leading space each,
      the present texts the author posted in that month, and stays missing when
      there are none. Row lookup is by name, hence distinct names, and
      formatting a row's month raises on a missing time. */
  method ConstructAuthorTable(data: seq<Comment>, selected: seq<string>, start: DateTime, end: DateTime)
    returns (table: AuthorTable<Option<string>>)
    requires AllDistinct(selected)
    requires forall r :: r in data && r.author in selected ==> r.created.Some?
    ensures fresh(table) && fresh(table.cells) && table.Valid()
    ensures table.authors == selected && table.months == MonthRange(start, end)
    ensures forall i, c :: 0 <= i < |selected| && 0 <= c < |table.months| ==>
      table.cells[i, c] == CellText(MonthTexts(RowsOf(data, selected[i]), table.months[c]))
  {
    var months := MonthRange(start, end);
    MonthRangeConsecutive(start, end);
    var cells := new Option<string>[|selected|, |months|]((i, c) => None);
    for i := 0 to |selected|
      invariant forall i', c :: 0 <= i' < i && 0 <= c < |months| ==>
        cells[i', c] == CellText(MonthTexts(RowsOf(data, selected[i']), months[c]))
      invariant forall i', c :: i <= i' < |selected| && 0 <= c < |months| ==> cells[i', c] == None
    {
      AddAuthorTexts(cells, i, RowsOf(data, selected[i]), months);
    }
    table := new AuthorTable(selected, months, cells);
  }

  /** The inner loop of `construct_author_table`: the rows of author `i`, in
      order, each appending its text to the cell of its month. */
  method AddAuthorTexts(cells: array2<Option<string>>, i: nat, rows: seq<Comment>, months: seq<YearMonth>)
    requires i < cells.Length0 && cells.Length1 == |months|
    requires forall a, b :: 0 <= a < b < |months| ==> months[a] != months[b]
    requires forall r :: r in rows ==> r.created.Some?
    requires forall c :: 0 <= c < |months| ==> cells[i, c] == None
    modifies cells
    ensures forall c :: 0 <= c < |months| ==> cells[i, c] == CellText(MonthTexts(rows, months[c]))
    ensures forall i', c :: 0 <= i' < cells.Length0 && i' != i && 0 <= c < |months| ==>
      cells[i', c] == old(cells[i', c])
  {
    for k := 0 to |rows|
      invariant forall i', c :: 0 <= i' < cells.Length0 && i' != i && 0 <= c < |months| ==>
        cells[i', c] == old(cells[i', c])
      invariant forall c :: 0 <= c < |months| ==> cells[i, c] == CellText(MonthTexts(rows[..k], months[c]))
    {
      var row := rows[k];
      var month := MonthOf(row.created.value);
      var column := IndexOf(months, month);
      ghost var before := RowOf(cells, i);
      if column.Some? && row.text.Some? {
        var current := cells[i, column.value];
        cells[i, column.value] := Some(current.GetOr("") + " " + row.text.value);
      }
      assert rows[..k + 1] == rows[..k] + [row];
      forall c | 0 <= c < |months|
        ensures cells[i, c] == CellText(MonthTexts(rows[..k + 1], months[c]))
      {
        MonthTextsSnoc(rows[..k], row, months[c]);
        var texts := MonthTexts(rows[..k], months[c]);
        assert before[c] == CellText(texts);
        assert MonthTexts(rows[..k + 1], months[c])
            == texts + (if Contributes(row, months[c]) then [row.text.value] else []);
        if Contributes(row, months[c]) {
          assert column.Some? && column.value == c;
          assert cells[i, c] == Some(before[c].GetOr("") + " " + row.text.value);
          CellTextSnoc(texts, row.text.value);
          assert cells[i, c] == CellText(texts + [row.text.value]);
        } else {
          assert !(column.Some? && row.text.Some?) || column.value != c;
          assert cells[i, c] == before[c];
          assert texts + [] == texts;
        }
      }
    }
    assert rows[..|rows|] == rows;
  }

  // ---------------------------------------------------------------------------
  // Scoring

  /** The classifier: a label and a score for a text, or `None` when the
      pipeline raises. */
  type Classifier = string -> Option<(string, real)>

  /** `text[:512]`. */
  function Truncate(text: string): (r: string)
    ensures |r| == if |text| < TextBudget then |text| else TextBudget
    ensures r <= text
  {
    if |text| <= TextBudget then text else text[..TextBudget]
  }

  /** `sentiment_analysis_huggingface`: missing text and a raising classifier
      give a missing score; otherwise the rounded score, negated unless the
      label is positive. `round3` stands for `round(_, 3)`. */
  function SentimentAnalysis(classify: Classifier, round3: real -> real, text: Option<string>): (score: Option<real>)
    ensures score.None? <==> text.None? || classify(Truncate(text.value)).None?
    ensures score.Some? ==> var result := classify(Truncate(text.value)).value;
      score.value == round3(if result.0 == PositiveLabel then result.1 else -result.1)
  {
    match text
    case None => None
    case Some(t) =>
      match classify(Truncate(t))
      case None => None
      case Some((verdict, s)) => Some(if verdict == PositiveLabel then round3(s) else round3(-s))
  }

  /** Only the first 512 characters of a text decide its score. */
  lemma OnlyPrefixScored(classify: Classifier, round3: real -> real, a: string, b: string)
    requires |a| >= TextBudget && |b| >= TextBudget && a[..TextBudget] == b[..TextBudget]
    ensures SentimentAnalysis(classify, round3, Some(a)) == SentimentAnalysis(classify, round3, Some(b))
  {
    assert a[..|a|] == a && b[..|b|] == b;
    assert Truncate(a) == a[..TextBudget] == b[..TextBudget] == Truncate(b);
  }

  /** With classifier scores in [0, 1] and a rounding that keeps sign and the
      unit interval, a score lies in [-1, 1], and its sign is the label's. */
  lemma ScoreSign(classify: Classifier, round3: real -> real, text: Option<string>)
    requires forall t :: classify(t).Some? ==> 0.0 <= classify(t).value.1 <= 1.0
    requires forall x :: 0.0 <= x <= 1.0 ==> 0.0 <= round3(x) <= 1.0
    requires forall x :: -1.0 <= x <= 0.0 ==> -1.0 <= round3(x) <= 0.0
    ensures var score := SentimentAnalysis(classify, round3, text);
      && (score.Some? ==> -1.0 <= score.value <= 1.0)
      && (score.Some? && score.value > 0.0 ==> classify(Truncate(text.value)).value.0 == PositiveLabel)
      && (score.Some? && score.value < 0.0 ==> classify(Truncate(text.value)).value.0 != PositiveLabel)
  {
    var score := SentimentAnalysis(classify, round3, text);
    if score.Some? {
      var s := classify(Truncate(text.value)).value.1;
      assert 0.0 <= s <= 1.0;
      assert -1.0 <= -s <= 0.0;
    }
  }

  /** `apply_sentiment_analysis`: every month column, one cell at a time, is
      replaced by the score of its text; the author column stays as it is.
      The scores go into a new grid because the cells change type. */
  method ApplySentimentAnalysis(table: AuthorTable<Option<string>>, classify: Classifier, round3: real -> real)
    returns (scored: AuthorTable<Option<real>>)
    requires table.Valid()
    ensures fresh(scored) && fresh(scored.cells) && scored.Valid()
    ensures scored.authors == table.authors && scored.months == table.months
    ensures forall i, c :: 0 <= i < |table.authors| && 0 <= c < |table.months| ==>
      scored.cells[i, c] == SentimentAnalysis(classify, round3, table.cells[i, c])
  {
    var rows, columns := |table.authors|, |table.months|;
    var cells := new Option<real>[rows, columns]((i, c) => None);
    for c := 0 to columns
      invariant forall i, c' :: 0 <= i < rows && 0 <= c' < c ==>
        cells[i, c'] == SentimentAnalysis(classify, round3, table.cells[i, c'])
    {
      for i := 0 to rows
        invariant forall i', c' :: 0 <= i' < rows && 0 <= c' < c ==>
          cells[i', c'] == SentimentAnalysis(classify, round3, table.cells[i', c'])
        invariant forall i' :: 0 <= i' < i ==>
          cells[i', c] == SentimentAnalysis(classify, round3, table.cells[i', c])
      {
        cells[i, c] := SentimentAnalysis(classify, round3, table.cells[i, c]);
      }
    }
    scored := new AuthorTable(table.authors, table.months, cells);
  }

  // ---------------------------------------------------------------------------
  // Filling

  /** The value a month cell holds after filling: its own score, else the
      filled value of the month before, and 0 in the first month. */
  function Carried(row: seq<Option<real>>, c: nat): (score: real)
    requires c < |row|
    ensures (forall k :: 0 <= k <= c ==> row[k].None?) ==> score == 0.0
    ensures (exists k :: 0 <= k <= c && row[k].Some?) ==>
      exists k :: 0 <= k <= c && row[k] == Some(score) && forall j :: k < j <= c ==> row[j].None?
    decreases c
  {
    if row[c].Some? then row[c].value
    else if c == 0 then 0.0
    else Carried(row, c - 1)
  }

  /** A whole row after filling. */
  function Filled(row: seq<Option<real>>): (r: seq<Option<real>>)
    ensures |r| == |row|
    ensures forall c :: 0 <= c < |r| ==> r[c].Some?
  {
    seq(|row|, c requires 0 <= c < |row| => Some(Carried(row, c)))
  }

  /** A filled cell holds the nearest score at or before it... */
  lemma {:induction false} CarriedIsNearestScore(row: seq<Option<real>>, c: nat, k: nat)
    requires k <= c < |row| && row[k].Some?
    requires forall j :: k < j <= c ==> row[j].None?
    ensures Carried(row, c) == row[k].value
    decreases c
  {
    if c > k {
      CarriedIsNearestScore(row, c - 1, k);
    }
  }

  /** ...and 0 when the author has no score up to that month. */
  lemma {:induction false} CarriedWithoutScore(row: seq<Option<real>>, c: nat)
    requires c < |row|
    requires forall j :: 0 <= j <= c ==> row[j].None?
    ensures Carried(row, c) == 0.0
    decreases c
  {
    if c > 0 {
      CarriedWithoutScore(row, c - 1);
    }
  }

  /** Filling leaves present scores alone and fills nothing twice. */
  lemma FilledIdempotent(row: seq<Option<real>>)
    ensures forall c :: 0 <= c < |row| && row[c].Some? ==> Filled(row)[c] == row[c]
    ensures Filled(Filled(row)) == Filled(row)
  {
  }

  /** A row with gaps at the start, in the middle and at the end. */
  lemma FillExample()
    ensures Filled([None, Some(0.5), None, None, Some(-0.2)])
         == [Some(0.0), Some(0.5), Some(0.5), Some(0.5), Some(-0.2)]
  {
    var row := [None, Some(0.5), None, None, Some(-0.2)];
    assert Carried(row, 0) == 0.0;
    assert Carried(row, 2) == 0.5;
    assert Carried(row, 3) == 0.5;
  }

  /** `fill_missing_data`: row by row, left to right, a missing month score
      becomes 0 in the first month and the (already filled) previous month's
      value otherwise. */
  method FillMissingData(table: AuthorTable<Option<real>>)
    requires table.Valid()
    modifies table.cells
    ensures forall i :: 0 <= i < |table.authors| ==>
      RowOf(table.cells, i) == Filled(old(RowOf(table.cells, i)))
  {
    var cells := table.cells;
    for i := 0 to cells.Length0
      invariant forall i' :: 0 <= i' < i ==> RowOf(cells, i') == Filled(old(RowOf(cells, i')))
      invariant forall i' :: i <= i' < cells.Length0 ==> RowOf(cells, i') == old(RowOf(cells, i'))
    {
      FillRow(cells, i);
    }
  }

  /** The inner loop of `fill_missing_data`: one author's row, left to right. */
  method FillRow(cells: array2<Option<real>>, i: nat)
    requires i < cells.Length0
    modifies cells
    ensures RowOf(cells, i) == Filled(old(RowOf(cells, i)))
    ensures forall i' :: 0 <= i' < cells.Length0 && i' != i ==> RowOf(cells, i') == old(RowOf(cells, i'))
  {
    var row := RowOf(cells, i);
    var columns := cells.Length1;
    for c := 0 to columns
      invariant forall i', c' :: 0 <= i' < cells.Length0 && i' != i && 0 <= c' < columns ==>
        cells[i', c'] == old(cells[i', c'])
      invariant forall c' :: 0 <= c' < c ==> cells[i, c'] == Some(Carried(row, c'))
      invariant forall c' :: c <= c' < columns ==> cells[i, c'] == row[c']
    {
      if row[c].None? {
        if c == 0 {
          cells[i, c] := Some(0.0);
        } else {
          cells[i, c] := cells[i, c - 1];
        }
      }
    }
    assert RowOf(cells, i) == Filled(row);
    forall i' | 0 <= i' < cells.Length0 && i' != i
      ensures RowOf(cells, i') == old(RowOf(cells, i'))
    {
      assert forall c' :: 0 <= c' < columns ==> RowOf(cells, i')[c'] == old(RowOf(cells, i'))[c'];
    }
  }
}
