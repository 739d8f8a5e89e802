# TAMP preprocessing pipeline, modelled in Dafny

This project models the three preprocessing scripts of TAMP that turn a table of
Reddit comments into inputs for the opinion model.

1. `pre/1.network.py` first selects the active authors. These are the authors with
   at least 20 comments whose `created_time` lies in [2022-01-01 00:00, 2024-11-30 00:00].
   It then gives each selected author a dense index. It builds the co-occurrence graph
   as a list of COO triples `(row, col, 1)`, two per unordered pair of distinct
   selected authors under the same post. It counts the edges as `len(rows) // 2`.
   Finally it writes the selected names one per line.
2. `pre/2.emotion_analysis.py` reads the names back with `line.strip()`. It then:
   - builds an author x month table, where each cell joins the author's texts of
     that month;
   - scores every cell with a sentiment classifier;
   - forward-fills the missing scores along each row, seeding the fill with 0.
3. `pre/3.data-explore.py` normalises the score table. It then bins its last column
   into five right-closed intervals over [0, 1] and counts each bin.

Modules:

| file | module | contents |
|---|---|---|
| `wrappers.dfy` | `Wrappers` | `Option`, `Result` |
| `seqs.dfy` | `Seqs` | filter, `unique()` (first-appearance dedup), stable sort, index lookup |
| `reddit.dfy` | `Reddit` | timestamps, months, `pd.date_range(freq="MS")`, the comment row |
| `network.dfy` | `Network` | author selection, index map, edge builder, graph properties |
| `userlist.dfy` | `UserList` | writing and re-reading the selected-author list |
| `emotion.dfy` | `Emotion` | monthly text table, scoring, forward fill |
| `explore.dfy` | `Explore` | normalisation, binning and counting |

The modelling choices that shape the contracts:

- A timestamp is `DateTime(year, month, day, second-of-day)`. A timestamp that
  failed to parse (NaT) is `None`, and it compares false with both window bounds.
- `pd.date_range(freq="MS")` tests only the day when deciding whether `start_date`
  is a month start, and every generated date carries the time of day of `start_date`.
  The month columns follow that rule.
- The window ends at midnight on 2024-11-30. Comments posted later that day fall
  outside it, exactly as the code's `<= end_date` does.
- `value_counts()` orders authors by count, descending. Ties keep their order of
  first appearance, via a stable sort.
- `groupby('post_id')` visits posts in ascending id order.
- The COO matrix is the list of its triples. The weight of `(u, v)` is the sum of
  the values of its entries, which is what the matrix holds after duplicate
  entries are summed.
- The sentiment classifier is a parameter of type `string -> Option<(string, real)>`,
  where `None` stands for an exception. `round(_, 3)` is also a parameter.
- A DataFrame in the sentiment script is an `AuthorTable`: an author column, month
  labels, and an `array2` of cells, with `None` for NaN.
- A DataFrame in the exploration script is a `Frame`: a row count and a sequence of
  labelled columns.

## Model

| member | source | states |
|---|---|---|
| Seqs.Dedup | pre/1.network.py:44 | `unique()`: keeps each value once, and keeps exactly the values of the input |
| Seqs.DedupOrder | pre/1.network.py:44 | `unique()` lists the values in the order of their first appearance in the input |
| Seqs.SortBy | pre/1.network.py:22 | the `value_counts` ordering: the result is sorted by the key and is a permutation of the input |
| Reddit.MonthRange | pre/2.emotion_analysis.py:12-13 | the month columns are valid months, and column k is k months after the first generated month: the month of `start_date` when it falls on day 1, else the next month |
| Reddit.MonthRangeConsecutive | pre/2.emotion_analysis.py:12-13 | the month columns are chronological, consecutive and pairwise distinct |
| Reddit.MonthRangeExact | pre/2.emotion_analysis.py:12 | a month is a column exactly when its first day, at the time of day of `start_date`, lies between `start_date` and the range end; the range end is `end_date`, rolled back to day 1 of its month (keeping its own time) when `start_date` is on day 1 and `end_date` is not |
| Reddit.ScriptMonths | pre/2.emotion_analysis.py:12-13 | for the script's window, midnight on 2022-01-01 to midnight on 2024-11-30, the columns are the 35 months from 2022-01 to 2024-11 |
| Reddit.TimeOfDayMonths | pre/2.emotion_analysis.py:12 | a start at 10:00 on 2022-01-01 keeps January; with that start, an end at 05:00 on 2022-03-01 leaves March out |
| Network.WindowComments | pre/1.network.py:19 | a comment is kept exactly when its time is defined and lies in the closed window; nothing is added |
| Network.RankedAuthors | pre/1.network.py:22 | the `value_counts()` keys are the distinct authors of the windowed comments, each once, in non-increasing order of count |
| Network.WindowCountIsActiveCount | pre/1.network.py:19-22 | an author's count among the windowed comments equals the count of that author's comments whose time is defined and inside the closed window |
| Network.SelectAuthors | pre/1.network.py:19-25 | the selected authors are distinct, and each has at least 20 comments among the windowed comments |
| Network.SelectAuthorsCorrect | pre/1.network.py:19-25 | the selected authors are distinct; an author is selected if and only if they have at least 20 comments in the window; and the list is ordered by non-increasing count |
| Network.NaTCommentIgnored | pre/1.network.py:16-19 | a comment whose time failed to parse changes neither the selection nor its order |
| Network.NaTOutsideWindow | pre/1.network.py:16-19 | removing a comment whose time failed to parse leaves the windowed comments unchanged |
| Network.GraphComments | pre/1.network.py:33 | a comment is kept exactly when it is in the window and its author is selected |
| Network.AuthorToIndex | pre/1.network.py:36 | the index map's keys are exactly the selected authors |
| Network.IndexBijection | pre/1.network.py:36 | for distinct selected authors, the index map is a bijection onto 0..N-1 that inverts the list: `index[sel[i]] == i` and `sel[index[a]] == a` |
| Network.PostIds | pre/1.network.py:43 | the `groupby` keys are exactly the post ids that occur, in strictly increasing order |
| Network.PostUsers | pre/1.network.py:44-45 | a post's user list holds only selected authors, each at most once |
| Network.PostUsersMembership | pre/1.network.py:43-45 | a post's user list holds each selected author who commented under the post exactly once, and no one else |
| Network.PostIndices | pre/1.network.py:44-50 | the indices of a post's users are distinct, and an author's index is among them exactly when the author is a user of the post |
| Network.AddPost | pre/1.network.py:43-57 | one group: the lists grow by exactly the pair triples of the post's selected `unique()` authors |
| Network.AddPostPairs | pre/1.network.py:47-57 | the nested pair loop appends exactly the triples `(u, v, 1), (v, u, 1)` for each pair i < j of the post's users, in loop order, keeping the three lists of equal length |
| Network.AddPairsOf | pre/1.network.py:48-57 | the innermost loop for user i appends `(u_i, u_j, 1), (u_j, u_i, 1)` for every later user j, in order |
| Network.BuildEdges | pre/1.network.py:43-57 | the loop over posts produces equal-length `rows`, `cols` and `data_values` whose zip is the concatenation, over posts in id order, of each post's pair triples |
| Network.Weight | pre/1.network.py:60 | the summed value at (u, v) is 0 when no triple has those indices, and is nonnegative when every value is |
| Network.PostWeight | pre/1.network.py:47-57 | within one post of distinct users, the weight of (u, v) is 1 when u and v are different users of the post, and 0 otherwise |
| Network.PostTriplesLength | pre/1.network.py:47-57 | a post with k users contributes 2 * C(k, 2) triples |
| Network.Choose2Closed | pre/1.network.py:88 | C(k, 2) is k(k-1)/2 |
| Network.PostEntries | pre/1.network.py:47-54 | every triple of a post joins two different users of the post, with value 1 |
| Network.PostSymmetric | pre/1.network.py:52-57 | within a post, the weight of (u, v) equals the weight of (v, u) |
| Network.EdgeWeightIsSharedPosts | pre/1.network.py:43-57 | for two different selected authors, the summed weight of their index pair is the number of posts under which both commented |
| Network.TriplesOverSymmetric | pre/1.network.py:52-60 | over all posts, the weight of (u, v) equals the weight of (v, u) |
| Network.TriplesOverEntries | pre/1.network.py:44-60 | no triple is a self-loop, both indices are below N (the matrix shape), and each value is 1 |
| Network.TriplesOverLength | pre/1.network.py:43-57 | the triple list has twice as many entries as there are post-wise author pairs, summed over posts |
| Network.BuildNetwork | pre/1.network.py:19-88 | end to end: the selection is as specified; N is the number of selected authors; the lists have equal, even length; there are no self-loops and all indices are in range; the weights are symmetric and equal the shared-post counts; and the edge count is the sum over posts of k(k-1)/2 |
| UserList.RoundTrip | pre/1.network.py:99-101 | writing the names one per line and reading them back with `line.strip()` (pre/2.emotion_analysis.py:90-91) returns the same list in the same order when no name has a line break inside or whitespace at either end |
| UserList.Lines | pre/2.emotion_analysis.py:91 | `for line in f` yields no line exactly for an empty file; every line is non-empty, has no line break before its last character, and every line but the last ends with `\n` |
| UserList.WriteUserList | pre/1.network.py:99-101 | the file is empty exactly when there are no names, and otherwise ends with a newline |
| UserList.Strip | pre/2.emotion_analysis.py:91 | `strip()` returns a contiguous slice of its argument with no whitespace at either end, and everything cut off on either side is whitespace |
| UserList.ReadUserList | pre/2.emotion_analysis.py:90-91 | one name per line read, and every name has no line break inside and no whitespace at either end |
| UserList.RereadIsStable | pre/2.emotion_analysis.py:90-91 | writing back a list that was read and reading it again gives the same list |
| UserList.PaddedNameIsTrimmed | pre/2.emotion_analysis.py:91 | any name without line breaks that starts with whitespace comes back as its stripped form, which differs from it, so the round trip needs its precondition |
| Emotion.AuthorTable.constructor | pre/2.emotion_analysis.py:15-16 | the table has the selected authors as its `author_name` column, the generated months as its other columns, and one cell per author and month |
| Emotion.MonthTexts | pre/2.emotion_analysis.py:19-22 | a text is collected for a month exactly when some row of the author was posted in that month and has that text present; at most one text per row |
| Emotion.CellText | pre/2.emotion_analysis.py:22-31 | a cell stays missing exactly when no text went into it |
| Emotion.MonthTextsSnoc | pre/2.emotion_analysis.py:20-22 | processing one more row adds that row's text at the end of its month's texts, and only when the row's month matches and its text is present |
| Emotion.JoinSpacedSnoc | pre/2.emotion_analysis.py:31 | appending `" " + text` to the joined cell gives the join of the longer list |
| Emotion.CellTextSnoc | pre/2.emotion_analysis.py:23-31 | the cell update `("" if missing else current) + " " + text` yields the cell of the list extended by the text |
| Emotion.SkippedRowChangesNothing | pre/2.emotion_analysis.py:22 | a row with missing text, or from a month that has no column, leaves every month cell unchanged |
| Emotion.AddAuthorTexts | pre/2.emotion_analysis.py:19-31 | after an author's rows are processed, each of that author's cells is the join of the texts the author posted in that month, and every other row is untouched |
| Emotion.ConstructAuthorTable | pre/2.emotion_analysis.py:9-32 | a new table with one row per selected author, in order, and the window's month columns; each cell holds `" " + t1 + " " + t2 + ...` over the author's present texts of that month in data order, or is missing when there are none |
| Emotion.Truncate | pre/2.emotion_analysis.py:41 | the classifier sees a prefix of the text, of length min(len, 512) |
| Emotion.SentimentAnalysis | pre/2.emotion_analysis.py:35-47 | the score is missing exactly when the text is missing or the classifier raises; otherwise it is the rounded classifier score, negated unless the label is `POSITIVE` |
| Emotion.OnlyPrefixScored | pre/2.emotion_analysis.py:41 | two texts that agree on their first 512 characters get the same score |
| Emotion.ScoreSign | pre/2.emotion_analysis.py:42-44 | with classifier scores in [0, 1] and a rounding that keeps the sign and the range, every score lies in [-1, 1]; a positive score comes from a `POSITIVE` label and a negative score from any other label |
| Emotion.ApplySentimentAnalysis | pre/2.emotion_analysis.py:49-54 | the author column and the month labels are kept, and every month cell is replaced by the score of its text |
| Emotion.Carried | pre/2.emotion_analysis.py:63-66 | a filled cell is 0 when no score precedes it in its row, and otherwise the value of the latest score at or before it |
| Emotion.Filled | pre/2.emotion_analysis.py:60-66 | after filling, no month cell is missing |
| Emotion.CarriedIsNearestScore | pre/2.emotion_analysis.py:61-66 | a filled cell holds the nearest score at or before it in its row |
| Emotion.CarriedWithoutScore | pre/2.emotion_analysis.py:63-64 | a cell with no score at or before it in its row is filled with 0 |
| Emotion.FilledIdempotent | pre/2.emotion_analysis.py:60-66 | present scores are kept, and filling a filled row changes nothing |
| Emotion.FillExample | pre/2.emotion_analysis.py:60-66 | the row [missing, 0.5, missing, missing, -0.2] becomes [0, 0.5, 0.5, 0.5, -0.2] |
| Emotion.FillRow | pre/2.emotion_analysis.py:61-66 | the column loop for one author turns that row into its forward fill and leaves every other row as it was |
| Emotion.FillMissingData | pre/2.emotion_analysis.py:57-67 | in place, each row becomes the forward fill of its old contents, read left to right from the already-updated previous cell |
| Explore.Frame.constructor | pre/3.data-explore.py:12 | the copy is a valid frame: every column has one value per row and the labels are distinct |
| Explore.MinOf | pre/3.data-explore.py:26 | `min()` of a non-empty column is a lower bound that is one of its values |
| Explore.MaxOf | pre/3.data-explore.py:27 | `max()` of a non-empty column is an upper bound that is one of its values |
| Explore.Spread | pre/3.data-explore.py:28 | `max_val > min_val` holds only when the column has two values in strict order |
| Explore.SpreadIffNotConstant | pre/3.data-explore.py:28 | `max_val > min_val` holds exactly when two of the column's values differ |
| Explore.NormalizeColumn | pre/3.data-explore.py:24-32 | a normalised column keeps its label and its length |
| Explore.IdColumn | pre/3.data-explore.py:18 | the inserted column is labelled `author_id` and has one entry per row |
| Explore.Shift | pre/3.data-explore.py:30 | (v+1)/2 is inverted by 2w-1, and sends [-1, 1] into [0, 1] |
| Explore.ShiftMapsUnitRange | pre/3.data-explore.py:30 | (v+1)/2 sends -1 to 0, 0 to 0.5 and 1 to 1, maps [-1, 1] into [0, 1], and keeps the order of values |
| Explore.ConstantColumnBecomesHalf | pre/3.data-explore.py:28-32 | a numeric column whose values are all equal (for example all 0.3) becomes all 0.5 |
| Explore.NormalizedInUnitRange | pre/3.data-explore.py:28-32 | a numeric column with values in [-1, 1] comes out with values in [0, 1] |
| Explore.DropColumn | pre/3.data-explore.py:21 | dropping a present label removes exactly the column at that label's position and keeps the others in order; an absent label changes nothing; the labels stay distinct |
| Explore.DropAfterInsert | pre/3.data-explore.py:18-21 | inserting `author_id` in front and then dropping `author_name` equals dropping first and then inserting |
| Explore.DroppedHeights | pre/3.data-explore.py:18-21 | after inserting `author_id` and dropping `author_name`, every column still has one value per row |
| Explore.NormalizeColumns | pre/3.data-explore.py:24-32 | the first column is kept, and every later column is normalised in place |
| Explore.NormalizeTable | pre/3.data-explore.py:6-33 | fails with the documented message when there is no `author_name` column, and fails when `author_id` already exists; otherwise it returns a new frame with the same row count whose first column is 0..n-1, with `author_name` gone and every other column normalised in order; the input frame is not modified |
| Explore.EdgesBelow | pre/3.data-explore.py:64 | on ascending edges, the search position n has every edge before it strictly below v and every edge from it on at or above v |
| Explore.Bin | pre/3.data-explore.py:64 | a bin code, when present, is one of the five bins |
| Explore.BinIsInterval | pre/3.data-explore.py:62-64 | a value gets bin k exactly when it lies in [0, 0.2] for k = 0, or in (0.2k, 0.2(k+1)] otherwise; it gets no bin exactly when it is outside [0, 1] |
| Explore.BinOf | pre/3.data-explore.py:62-64 | the bin code in closed form: none below 0, bin 0 up to 0.2, then one bin per step of 0.2 up to 1, none above |
| Explore.BinBoundaries | pre/3.data-explore.py:62-64 | 0 and 0.2 fall in the first bin, 0.21 in the second, 1 in the last, and -0.1 and 1.1 in none |
| Explore.NormalizedValuesAreBinned | pre/3.data-explore.py:98-106 | every value of a normalised numeric column whose input was in [-1, 1] gets a bin |
| Explore.Categorize | pre/3.data-explore.py:64 | one code per value; the code is missing exactly when the value is outside [0, 1], and is bin k exactly when the value lies in bin k's interval |
| Explore.Counts | pre/3.data-explore.py:67 | `value_counts().sort_index()` returns five counts, one per bin, in bin order |
| Explore.CountsTotal | pre/3.data-explore.py:64-67 | the five counts add up to the number of last-column values in [0, 1] |
| Explore.LastValues | pre/3.data-explore.py:59 | the last column's values are available exactly when there is a last column and it is numeric |
| Explore.SetColumn | pre/3.data-explore.py:64 | `table['categories'] = ...` puts the new column in the frame; it replaces a column of that label in place, or is appended at the end |
| Explore.SetColumnValid | pre/3.data-explore.py:64 | setting the column keeps the frame rectangular with distinct labels, and leaves every column of another label where it was |
| Explore.AnalyzeLastColumn | pre/3.data-explore.py:59-67 | fails without changing the frame when there is no numeric last column; otherwise the caller's frame gains or replaces `categories` with the bin codes of the last column, and the result is the five per-bin counts, which total the number of values in [0, 1] |

## Left out

- File and DataFrame I/O are not modelled: `read_csv` and its encodings, `to_csv`, `save_npz`, the `print` calls and opening files. The user-list file is modelled as the string written and read.
- The Hugging Face pipeline, the torch device choice and the tqdm progress bar are foreign code. The classifier is a parameter, and nothing is proved about its scores beyond the sign, missing and failure conventions.
- Floating point is not modelled. Values are `real`, `round(_, 3)` is an abstract parameter, and the `np.linspace` edges are taken as the exact reals 0, 0.2, 0.4, 0.6, 0.8 and 1.
- NaN inside numeric columns of the exploration script is not modelled. In the pipeline those columns have been filled already. Booleans are not treated as numeric columns.
- Plotting is not modelled: the matplotlib calls in `pre/3.data-explore.py` and all of `pre/visual.py`. The binning that `pre/visual.py` repeats is the same as the one modelled here.
- The commented-out edge construction by subreddit and time (`pre/1.network.py:62-84`) is disabled code and is not modelled.
- Missing author names and missing post ids are not modelled: pandas leaves NaN authors out of `value_counts` (`pre/1.network.py:22`) and NaN keys out of `groupby` (`pre/1.network.py:43`), and no modelled property depends on them.
- Timestamp parsing is not modelled. A timestamp is either already parsed or `None`. Month labels are `YearMonth` values rather than `YYYY-MM` strings. Formatting is one-to-one on valid months, so the column test is unaffected.
- `clean_data` in `pre/Data cleaning.py` (dropping leading sparse month columns) is not part of this model.
- The scipy `coo_matrix` itself is not modelled, only its triple list and the summed weight of each index pair.
- Seqs.SortBy: pandas does not document the order of authors with equal counts in `value_counts`. The model fixes it as order of first appearance.
- Network.PostIds: post ids are modelled as integers, and `groupby` visits them in ascending order.
- UserList.RoundTrip: whitespace is Python's `str.isspace` set, and line breaks are Python's universal newlines (`\n`, `\r`, `\r\n`). Other Unicode line boundaries that `str.splitlines` would honour are not relevant to `for line in f`.
- Emotion.ConstructAuthorTable: requires distinct author names, because the code looks rows up by name and reads `.values[0]`. With repeated names the table would differ from one row per entry. It also requires defined timestamps on the selected authors' rows, because `strftime` on NaT raises.
- Emotion.ApplySentimentAnalysis: writes the scores into a new grid of the same shape, because the cell type changes from text to number, where the code reassigns the columns of the same DataFrame.
- Explore.Frame: column labels are distinct, as `read_csv` makes them, and every column has one value per row.

Notes on the code:

- The comment at `pre/1.network.py:24` says 10 comments, but line 25 uses 20. The model uses 20.
- `pd.cut` is right-closed with `include_lowest=True`, so 0 and 0.2 fall in the first bin (`Explore.BinBoundaries`).
