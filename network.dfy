/** The co-occurrence graph script: select the authors with at least twenty
    comments inside a closed time window, give each a dense index, and for every
    post add a symmetric pair of weight-1 entries for every unordered pair of
    distinct selected authors who commented under it. The sparse matrix is kept
    as its three coordinate lists (`rows`, `cols`, `data_values`); the weight of
    a pair is the sum of its entries, as `coo_matrix` sums duplicates. */
module Network {
  import opened Wrappers
  import opened Reddit
  import opened Seqs

  /** Authors need at least this many comments inside the window. */
  const MinComments: nat := 20
  const StartDate: DateTime := DateTime(2022, 1, 1, 0)
  const EndDate: DateTime := DateTime(2024, 11, 30, 0)

  /** One coordinate-list entry: (row, column, weight). */
  type Triple = (int, int, int)

  // ---------------------------------------------------------------------
  // Author selection

  /** A NaT timestamp compares false with both bounds, so it is never inside. */
  predicate InWindow(c: Comment, start: DateTime, end: DateTime) {
    c.created.Some? && AtOrBefore(start, c.created.value) && AtOrBefore(c.created.value, end)
  }

  function InWindowTest(start: DateTime, end: DateTime): Comment -> bool {
    c => InWindow(c, start, end)
  }

  /** `data[(created_time >= start_date) & (created_time <= end_date)]`. */
  function WindowComments(cs: seq<Comment>, start: DateTime, end: DateTime): (window: seq<Comment>)
    ensures |window| <= |cs|
    ensures forall c :: c in window <==> c in cs && InWindow(c, start, end)
  {
    Filter(cs, InWindowTest(start, end))
  }

  function AuthorsOf(cs: seq<Comment>): (r: seq<string>)
    ensures |r| == |cs|
    ensures forall i :: 0 <= i < |cs| ==> r[i] == cs[i].author
  {
    seq(|cs|, i requires 0 <= i < |cs| => cs[i].author)
  }

  /** The `value_counts()` entry of author `a`. */
  function CommentCount(cs: seq<Comment>, a: string): nat
    decreases |cs|
  {
    if cs == [] then 0
    else (if cs[0].author == a then 1 else 0) + CommentCount(cs[1..], a)
  }

  /** Reference definition: the number of comments by `a` inside the window. */
  function ActiveCount(cs: seq<Comment>, start: DateTime, end: DateTime, a: string): nat
    decreases |cs|
  {
    if cs == [] then 0
    else
      var here := if cs[0].author == a && InWindow(cs[0], start, end) then 1 else 0;
      here + ActiveCount(cs[1..], start, end, a)
  }

  /** The keys of `value_counts()`: distinct authors by descending count (ties in
      order of first appearance). */
  function RankedAuthors(window: seq<Comment>): (ranked: seq<string>)
    ensures AllDistinct(ranked)
    ensures forall a :: a in ranked <==> a in AuthorsOf(window)
    ensures forall i, j :: 0 <= i < j < |ranked| ==>
      CommentCount(window, ranked[i]) >= CommentCount(window, ranked[j])
  {
    var key := ByCountDescending(window);
    var authors := Dedup(AuthorsOf(window));
    SortByKeepsElements(authors, key);
    var ranked := SortBy(authors, key);
    assert forall i, j :: 0 <= i < j < |ranked| ==> key(ranked[i]) <= key(ranked[j]);
    ranked
  }

  function ByCountDescending(window: seq<Comment>): string -> int {
    a => 0 - CommentCount(window, a)
  }

  function IsActive(window: seq<Comment>): string -> bool {
    a => CommentCount(window, a) >= MinComments
  }

  /** `selected_authors` from the in-window comments: the `value_counts()` keys
      whose count is at least 20. */
  function SelectFrom(window: seq<Comment>): seq<string> {
    Filter(RankedAuthors(window), IsActive(window))
  }

  function SelectAuthors(cs: seq<Comment>, start: DateTime, end: DateTime): (sel: seq<string>)
    ensures AllDistinct(sel)
    ensures forall a :: a in sel ==> CommentCount(WindowComments(cs, start, end), a) >= MinComments
  {
    var window := WindowComments(cs, start, end);
    FilterDistinct(RankedAuthors(window), IsActive(window));
    SelectFrom(window)
  }

  lemma {:induction false} WindowCountIsActiveCount(cs: seq<Comment>, start: DateTime, end: DateTime, a: string)
    ensures CommentCount(WindowComments(cs, start, end), a) == ActiveCount(cs, start, end, a)
    decreases |cs|
  {
    if cs != [] {
      WindowCountIsActiveCount(cs[1..], start, end, a);
    }
  }

  lemma {:induction false} CountedAuthorAppears(cs: seq<Comment>, a: string)
    requires CommentCount(cs, a) > 0
    ensures a in AuthorsOf(cs)
    decreases |cs|
  {
    if cs[0].author != a {
      CountedAuthorAppears(cs[1..], a);
      var i :| 0 <= i < |cs[1..]| && AuthorsOf(cs[1..])[i] == a;
      assert AuthorsOf(cs)[i + 1] == a;
    } else {
      assert AuthorsOf(cs)[0] == a;
    }
  }

  /** Selection is exact: an author is selected if and only if it has at least
      twenty comments inside the window; the list has no duplicates and is
      ordered by descending count. */
  lemma SelectAuthorsCorrect(cs: seq<Comment>, start: DateTime, end: DateTime)
    ensures var sel := SelectAuthors(cs, start, end);
      && AllDistinct(sel)
      && (forall a :: a in sel <==> ActiveCount(cs, start, end, a) >= MinComments)
      && (forall i, j :: 0 <= i < j < |sel| ==>
            ActiveCount(cs, start, end, sel[i]) >= ActiveCount(cs, start, end, sel[j]))
  {
    var window := WindowComments(cs, start, end);
    var key := ByCountDescending(window);
    var pred := IsActive(window);
    var ranked := RankedAuthors(window);
    var sel := SelectAuthors(cs, start, end);
    FilterDistinct(ranked, pred);
    FilterSorted(ranked, pred, key);
    forall a ensures CommentCount(window, a) == ActiveCount(cs, start, end, a) {
      WindowCountIsActiveCount(cs, start, end, a);
    }
    forall a | ActiveCount(cs, start, end, a) >= MinComments ensures a in sel {
      CountedAuthorAppears(window, a);
    }
  }

  /** Comments whose timestamp failed to parse never influence the selection. */
  lemma NaTCommentIgnored(before: seq<Comment>, c: Comment, after: seq<Comment>, start: DateTime, end: DateTime)
    requires c.created.None?
    ensures SelectAuthors(before + [c] + after, start, end) == SelectAuthors(before + after, start, end)
  {
    NaTOutsideWindow(before, c, after, start, end);
  }

  /** A comment without a timestamp is not in the window. */
  lemma NaTOutsideWindow(before: seq<Comment>, c: Comment, after: seq<Comment>, start: DateTime, end: DateTime)
    requires c.created.None?
    ensures WindowComments(before + [c] + after, start, end) == WindowComments(before + after, start, end)
  {
    var p := InWindowTest(start, end);
    FilterAppend(before + [c], after, p);
    FilterAppend(before, [c], p);
    FilterAppend(before, after, p);
    assert Filter([c], p) == [] by {
      assert !p(c);
      assert [c][1..] == [];
    }
    assert Filter(before + [c], p) == Filter(before, p);
  }

  // ---------------------------------------------------------------------
  // Dense author index

  /** `author_to_index`: a dict comprehension over `enumerate`, so a later
      position overwrites an earlier one. */
  function AuthorToIndex(sel: seq<string>): (m: map<string, int>)
    ensures forall a :: a in m <==> a in sel
    decreases |sel|
  {
    if sel == [] then map[]
    else AuthorToIndex(sel[..|sel| - 1])[sel[|sel| - 1] := |sel| - 1]
  }

  /** On a duplicate-free list the index is a bijection onto 0..N-1. */
  lemma {:induction false} IndexBijection(sel: seq<string>)
    requires AllDistinct(sel)
    ensures forall i :: 0 <= i < |sel| ==> AuthorToIndex(sel)[sel[i]] == i
    ensures forall a :: a in AuthorToIndex(sel) ==>
      0 <= AuthorToIndex(sel)[a] < |sel| && sel[AuthorToIndex(sel)[a]] == a
    decreases |sel|
  {
    if sel != [] {
      var init := sel[..|sel| - 1];
      IndexBijection(init);
      assert forall i :: 0 <= i < |init| ==> init[i] == sel[i] && sel[i] != sel[|sel| - 1];
    }
  }

  // ---------------------------------------------------------------------
  // Edge construction

  function PostsOf(cs: seq<Comment>): (r: seq<int>)
    ensures |r| == |cs|
    ensures forall i :: 0 <= i < |cs| ==> r[i] == cs[i].post
  {
    seq(|cs|, i requires 0 <= i < |cs| => cs[i].post)
  }

  /** The keys of `groupby('post_id')`: distinct post ids in ascending order. */
  function PostIds(cs: seq<Comment>): (ids: seq<int>)
    ensures forall p :: p in ids <==> p in PostsOf(cs)
    ensures forall i, j :: 0 <= i < j < |ids| ==> ids[i] < ids[j]
  {
    var posts := Dedup(PostsOf(cs));
    var key := (p: int) => p;
    SortByKeepsElements(posts, key);
    var ids := SortBy(posts, key);
    assert forall i, j :: 0 <= i < j < |ids| ==> ids[i] != ids[j] && key(ids[i]) <= key(ids[j]);
    ids
  }

  /** The group of one post, in data order. */
  function PostComments(cs: seq<Comment>, post: int): seq<Comment> {
    Filter(cs, UnderPost(post))
  }

  function UnderPost(post: int): Comment -> bool {
    (c: Comment) => c.post == post
  }

  function KeepSelected(users: seq<string>, selected: seq<string>): seq<string> {
    Filter(users, Among(selected))
  }

  function Among(selected: seq<string>): string -> bool {
    u => u in selected
  }

  /** `users` of one post: `unique()` authors of the group, restricted to the
      selected authors. */
  function PostUsers(cs: seq<Comment>, post: int, selected: seq<string>): (users: seq<string>)
    ensures AllDistinct(users)
    ensures forall u :: u in users ==> u in selected
  {
    var authors := Dedup(AuthorsOf(PostComments(cs, post)));
    FilterDistinct(authors, Among(selected));
    KeepSelected(authors, selected)
  }

  function Indices(users: seq<string>, index: map<string, int>): (r: seq<int>)
    requires forall u :: u in users ==> u in index
    ensures |r| == |users|
    ensures forall i :: 0 <= i < |users| ==> r[i] == index[users[i]]
  {
    seq(|users|, i requires 0 <= i < |users| => index[users[i]])
  }

  /** The entries the inner loop adds for user `x` and the users after it. */
  function PairTriples(x: int, rest: seq<int>): seq<Triple>
    decreases |rest|
  {
    if rest == [] then []
    else [(x, rest[0], 1), (rest[0], x, 1)] + PairTriples(x, rest[1..])
  }

  /** The entries added for one post whose users have indices `ids`. */
  function PostTriples(ids: seq<int>): seq<Triple>
    decreases |ids|
  {
    if ids == [] then []
    else PairTriples(ids[0], ids[1..]) + PostTriples(ids[1..])
  }

  /** The entries added for the posts `posts`, in that order. */
  function TriplesOver(cs: seq<Comment>, posts: seq<int>, selected: seq<string>, index: map<string, int>): seq<Triple>
    requires forall a :: a in selected ==> a in index
    decreases |posts|
  {
    if posts == [] then []
    else
      var first := PostTriples(Indices(PostUsers(cs, posts[0], selected), index));
      first + TriplesOver(cs, posts[1..], selected, index)
  }

  /** The coordinate list the script builds from the filtered comments. */
  function EdgeTriples(cs: seq<Comment>, selected: seq<string>, index: map<string, int>): seq<Triple>
    requires forall a :: a in selected ==> a in index
  {
    TriplesOver(cs, PostIds(cs), selected, index)
  }

  /** The three parallel lists viewed as one list of entries. */
  function Zip(rows: seq<int>, cols: seq<int>, values: seq<int>): (r: seq<Triple>)
    requires |rows| == |cols| == |values|
    ensures |r| == |rows|
    ensures forall k :: 0 <= k < |r| ==> r[k] == (rows[k], cols[k], values[k])
  {
    seq(|rows|, k requires 0 <= k < |rows| => (rows[k], cols[k], values[k]))
  }

  /** The nested loops over the groups (`groupby('post_id')`) and, inside each,
      over pairs `i < j` of its users. */
  method BuildEdges(filtered: seq<Comment>, selected: seq<string>, index: map<string, int>)
    returns (rows: seq<int>, cols: seq<int>, values: seq<int>)
    requires forall a :: a in selected ==> a in index
    ensures |rows| == |cols| == |values|
    ensures Zip(rows, cols, values) == EdgeTriples(filtered, selected, index)
  {
    rows, cols, values := [], [], [];
    var posts := PostIds(filtered);
    for p := 0 to |posts|
      invariant |rows| == |cols| == |values|
      invariant Zip(rows, cols, values) + TriplesOver(filtered, posts[p..], selected, index)
        == EdgeTriples(filtered, selected, index)
    {
      ghost var before := Zip(rows, cols, values);
      ghost var here := PostTriples(Indices(PostUsers(filtered, posts[p], selected), index));
      ghost var later := TriplesOver(filtered, posts[p + 1..], selected, index);
      assert posts[p..][0] == posts[p] && posts[p..][1..] == posts[p + 1..];
      assert TriplesOver(filtered, posts[p..], selected, index) == here + later;
      rows, cols, values := AddPost(rows, cols, values, filtered, posts[p], selected, index);
      AppendAssociative(before, here, later);
    }
    assert posts[|posts|..] == [];
  }

  /** One group of `groupby('post_id')`: its `unique()` authors, restricted to
      the selected ones, and then their pairs. */
  method AddPost(rows: seq<int>, cols: seq<int>, values: seq<int>, filtered: seq<Comment>, post: int,
                 selected: seq<string>, index: map<string, int>)
    returns (rows': seq<int>, cols': seq<int>, values': seq<int>)
    requires |rows| == |cols| == |values|
    requires forall a :: a in selected ==> a in index
    ensures |rows'| == |cols'| == |values'|
    ensures Zip(rows', cols', values')
      == Zip(rows, cols, values) + PostTriples(Indices(PostUsers(filtered, post, selected), index))
  {
    var group := PostComments(filtered, post);
    var users := Dedup(AuthorsOf(group));
    users := KeepSelected(users, selected);
    assert users == PostUsers(filtered, post, selected);
    rows', cols', values' := AddPostPairs(rows, cols, values, users, index);
  }

  /** The two inner loops for one post: appends both directions of every pair
      `i < j` of `users`. */
  method AddPostPairs(rows: seq<int>, cols: seq<int>, values: seq<int>, users: seq<string>, index: map<string, int>)
    returns (rows': seq<int>, cols': seq<int>, values': seq<int>)
    requires |rows| == |cols| == |values|
    requires forall u :: u in users ==> u in index
    ensures |rows'| == |cols'| == |values'|
    ensures Zip(rows', cols', values') == Zip(rows, cols, values) + PostTriples(Indices(users, index))
  {
    ghost var ids := Indices(users, index);
    rows', cols', values' := rows, cols, values;
    assert ids[0..] == ids;
    for i := 0 to |users|
      invariant |rows'| == |cols'| == |values'|
      invariant Zip(rows', cols', values') + PostTriples(ids[i..])
        == Zip(rows, cols, values) + PostTriples(ids)
    {
      assert ids[i..][1..] == ids[i + 1..];
      ghost var start := Zip(rows', cols', values');
      rows', cols', values' := AddPairsOf(rows', cols', values', users, index, i);
      assert PostTriples(ids[i..]) == PairTriples(ids[i], ids[i + 1..]) + PostTriples(ids[i + 1..]);
      AppendAssociative(start, PairTriples(ids[i], ids[i + 1..]), PostTriples(ids[i + 1..]));
    }
    assert ids[|users|..] == [];
  }

  /** The inner loop for user `i`: appends both directions of every pair
      `(i, j)` with `j > i`. */
  method AddPairsOf(rows: seq<int>, cols: seq<int>, values: seq<int>, users: seq<string>, index: map<string, int>, i: nat)
    returns (rows': seq<int>, cols': seq<int>, values': seq<int>)
    requires |rows| == |cols| == |values|
    requires forall u :: u in users ==> u in index
    requires i < |users|
    ensures |rows'| == |cols'| == |values'|
    ensures Zip(rows', cols', values')
      == Zip(rows, cols, values) + PairTriples(Indices(users, index)[i], Indices(users, index)[i + 1..])
  {
    ghost var ids := Indices(users, index);
    rows', cols', values' := rows, cols, values;
    for j := i + 1 to |users|
      invariant |rows'| == |cols'| == |values'|
      invariant Zip(rows', cols', values') + PairTriples(ids[i], ids[j..])
        == Zip(rows, cols, values) + PairTriples(ids[i], ids[i + 1..])
    {
      var u := index[users[i]];
      var v := index[users[j]];
      assert ids[j..][1..] == ids[j + 1..];
      ghost var before := Zip(rows', cols', values');
      rows' := rows' + [u, v];
      cols' := cols' + [v, u];
      values' := values' + [1, 1];
      assert Zip(rows', cols', values') == before + [(u, v, 1), (v, u, 1)];
    }
    assert ids[|users|..] == [];
  }

  // ---------------------------------------------------------------------
  // Weights

  /** Summed weight of entry (u, v), as `coo_matrix` adds duplicate entries. */
  function Weight(ts: seq<Triple>, u: int, v: int): (w: int)
    ensures (forall k :: 0 <= k < |ts| ==> ts[k].2 >= 0) ==> w >= 0
    ensures (forall k :: 0 <= k < |ts| ==> ts[k].0 != u || ts[k].1 != v) ==> w == 0
    decreases |ts|
  {
    if ts == [] then 0
    else (if ts[0].0 == u && ts[0].1 == v then ts[0].2 else 0) + Weight(ts[1..], u, v)
  }

  lemma {:induction false} WeightAppend(a: seq<Triple>, b: seq<Triple>, u: int, v: int)
    ensures Weight(a + b, u, v) == Weight(a, u, v) + Weight(b, u, v)
    decreases |a|
  {
    if a == [] {
      assert a + b == b;
    } else {
      assert (a + b)[1..] == a[1..] + b;
      WeightAppend(a[1..], b, u, v);
    }
  }

  lemma {:induction false} PairWeight(x: int, rest: seq<int>, u: int, v: int)
    ensures Weight(PairTriples(x, rest), u, v) ==
      (if x == u && x != v then Occurrences(rest, v) else 0)
      + (if x == v && x != u then Occurrences(rest, u) else 0)
      + (if x == u && x == v then 2 * Occurrences(rest, u) else 0)
    decreases |rest|
  {
    if rest != [] {
      var head := [(x, rest[0], 1), (rest[0], x, 1)];
      WeightAppend(head, PairTriples(x, rest[1..]), u, v);
      PairWeight(x, rest[1..], u, v);
      assert head[1..] == [(rest[0], x, 1)];
    }
  }

  /** Within one post every unordered pair of distinct users gets weight one in
      each direction, and nothing else gets any weight. */
  lemma {:induction false} PostWeight(ids: seq<int>, u: int, v: int)
    requires AllDistinct(ids)
    ensures Weight(PostTriples(ids), u, v) == if u != v && u in ids && v in ids then 1 else 0
    decreases |ids|
  {
    if ids != [] {
      var rest := ids[1..];
      assert AllDistinct(rest);
      assert ids[0] !in rest;
      WeightAppend(PairTriples(ids[0], rest), PostTriples(rest), u, v);
      PairWeight(ids[0], rest, u, v);
      PostWeight(rest, u, v);
      OccurrencesOfDistinct(rest, u);
      OccurrencesOfDistinct(rest, v);
      assert forall w :: w in ids <==> w == ids[0] || w in rest;
    }
  }

  /** A post with k distinct users contributes k(k-1)/2 undirected edges. */
  function Choose2(k: nat): nat {
    if k == 0 then 0 else Choose2(k - 1) + (k - 1)
  }

  lemma {:induction false} Choose2Closed(k: nat)
    ensures 2 * Choose2(k) == k * (k - 1)
  {
    if k > 0 {
      Choose2Closed(k - 1);
      assert (k - 1) * (k - 2) + 2 * (k - 1) == k * (k - 1);
    }
  }

  lemma {:induction false} PairTriplesLength(x: int, rest: seq<int>)
    ensures |PairTriples(x, rest)| == 2 * |rest|
    decreases |rest|
  {
    if rest != [] {
      PairTriplesLength(x, rest[1..]);
    }
  }

  lemma {:induction false} PostTriplesLength(ids: seq<int>)
    ensures |PostTriples(ids)| == 2 * Choose2(|ids|)
    decreases |ids|
  {
    if ids != [] {
      PairTriplesLength(ids[0], ids[1..]);
      PostTriplesLength(ids[1..]);
    }
  }

  /** Every entry of one post joins two different users, has weight one, and
      both ends are indices of those users. */
  lemma {:induction false} PostEntries(ids: seq<int>)
    requires AllDistinct(ids)
    ensures forall t :: t in PostTriples(ids) ==> t.0 != t.1 && t.0 in ids && t.1 in ids && t.2 == 1
    decreases |ids|
  {
    if ids != [] {
      var rest := ids[1..];
      PostEntries(rest);
      assert ids[0] !in rest;
      PairEntries(ids[0], rest);
    }
  }

  lemma {:induction false} PairEntries(x: int, rest: seq<int>)
    requires x !in rest
    ensures forall t :: t in PairTriples(x, rest) ==>
      t.2 == 1 && ((t.0 == x && t.1 in rest) || (t.1 == x && t.0 in rest))
    decreases |rest|
  {
    if rest != [] {
      PairEntries(x, rest[1..]);
    }
  }

  /** `coo_matrix` adds a pair's entries, so the matrix is symmetric. */
  lemma {:induction false} PostSymmetric(ids: seq<int>, u: int, v: int)
    ensures Weight(PostTriples(ids), u, v) == Weight(PostTriples(ids), v, u)
    decreases |ids|
  {
    if ids != [] {
      WeightAppend(PairTriples(ids[0], ids[1..]), PostTriples(ids[1..]), u, v);
      WeightAppend(PairTriples(ids[0], ids[1..]), PostTriples(ids[1..]), v, u);
      PairWeight(ids[0], ids[1..], u, v);
      PairWeight(ids[0], ids[1..], v, u);
      PostSymmetric(ids[1..], u, v);
    }
  }

  /** The number of posts (from `posts`) under which both `a` and `b` commented. */
  function SharedPosts(cs: seq<Comment>, posts: seq<int>, a: string, b: string): nat
    decreases |posts|
  {
    if posts == [] then 0
    else
      var here := if Commented(cs, posts[0], a) && Commented(cs, posts[0], b) then 1 else 0;
      here + SharedPosts(cs, posts[1..], a, b)
  }

  predicate Commented(cs: seq<Comment>, post: int, a: string) {
    exists c :: c in cs && c.post == post && c.author == a
  }

  /** The total number of unordered pairs over the posts `posts`. */
  function PairTotal(cs: seq<Comment>, posts: seq<int>, selected: seq<string>): nat
    decreases |posts|
  {
    if posts == [] then 0
    else Choose2(|PostUsers(cs, posts[0], selected)|) + PairTotal(cs, posts[1..], selected)
  }

  lemma PostUsersMembership(cs: seq<Comment>, post: int, selected: seq<string>, a: string)
    ensures a in PostUsers(cs, post, selected) <==> a in selected && Commented(cs, post, a)
    ensures AllDistinct(PostUsers(cs, post, selected))
  {
    var group := PostComments(cs, post);
    FilterDistinct(Dedup(AuthorsOf(group)), Among(selected));
    if a in selected && Commented(cs, post, a) {
      var c :| c in cs && c.post == post && c.author == a;
      assert c in group;
      var k :| 0 <= k < |group| && group[k] == c;
      assert AuthorsOf(group)[k] == a;
    }
    if a in PostUsers(cs, post, selected) {
      assert a in AuthorsOf(group);
      var k :| 0 <= k < |group| && AuthorsOf(group)[k] == a;
      assert group[k] in cs && group[k].post == post;
    }
  }

  /** With the index of a duplicate-free selection, the users of a post map to
      distinct indices, and an author is among the users exactly when its index
      is among theirs. */
  lemma PostIndices(cs: seq<Comment>, post: int, selected: seq<string>, a: string)
    requires AllDistinct(selected) && a in selected
    ensures var users := PostUsers(cs, post, selected);
      var ids := Indices(users, AuthorToIndex(selected));
      && AllDistinct(ids)
      && (AuthorToIndex(selected)[a] in ids <==> a in users)
  {
    var index := AuthorToIndex(selected);
    var users := PostUsers(cs, post, selected);
    PostUsersMembership(cs, post, selected, a);
    IndexBijection(selected);
    forall u | u in users ensures u in selected {
      PostUsersMembership(cs, post, selected, u);
    }
    var ids := Indices(users, index);
    forall i, j | 0 <= i < j < |ids| ensures ids[i] != ids[j] {
      assert users[i] != users[j];
      assert selected[index[users[i]]] == users[i];
    }
    if index[a] in ids {
      var k :| 0 <= k < |ids| && ids[k] == index[a];
      assert selected[index[users[k]]] == users[k];
    }
  }

  /** The summed weight of (index[a], index[b]) is the number of posts under
      which both a and b commented. */
  lemma {:induction false} EdgeWeightIsSharedPosts(cs: seq<Comment>, posts: seq<int>, selected: seq<string>, a: string, b: string)
    requires AllDistinct(selected) && a in selected && b in selected && a != b
    ensures var index := AuthorToIndex(selected);
      Weight(TriplesOver(cs, posts, selected, index), index[a], index[b]) == SharedPosts(cs, posts, a, b)
    decreases |posts|
  {
    var index := AuthorToIndex(selected);
    if posts != [] {
      var ids := Indices(PostUsers(cs, posts[0], selected), index);
      IndexBijection(selected);
      assert index[a] != index[b];
      PostIndices(cs, posts[0], selected, a);
      PostIndices(cs, posts[0], selected, b);
      PostUsersMembership(cs, posts[0], selected, a);
      PostUsersMembership(cs, posts[0], selected, b);
      WeightAppend(PostTriples(ids), TriplesOver(cs, posts[1..], selected, index), index[a], index[b]);
      PostWeight(ids, index[a], index[b]);
      EdgeWeightIsSharedPosts(cs, posts[1..], selected, a, b);
    }
  }

  lemma {:induction false} TriplesOverSymmetric(cs: seq<Comment>, posts: seq<int>, selected: seq<string>, index: map<string, int>, u: int, v: int)
    requires forall a :: a in selected ==> a in index
    ensures Weight(TriplesOver(cs, posts, selected, index), u, v) == Weight(TriplesOver(cs, posts, selected, index), v, u)
    decreases |posts|
  {
    if posts != [] {
      var ids := Indices(PostUsers(cs, posts[0], selected), index);
      var rest := TriplesOver(cs, posts[1..], selected, index);
      WeightAppend(PostTriples(ids), rest, u, v);
      WeightAppend(PostTriples(ids), rest, v, u);
      PostSymmetric(ids, u, v);
      TriplesOverSymmetric(cs, posts[1..], selected, index, u, v);
    }
  }

  /** Every entry is an off-diagonal weight-1 entry inside the N x N shape. */
  lemma {:induction false} TriplesOverEntries(cs: seq<Comment>, posts: seq<int>, selected: seq<string>)
    requires AllDistinct(selected)
    ensures forall t :: t in TriplesOver(cs, posts, selected, AuthorToIndex(selected)) ==>
      t.0 != t.1 && 0 <= t.0 < |selected| && 0 <= t.1 < |selected| && t.2 == 1
    decreases |posts|
  {
    if posts != [] {
      var index := AuthorToIndex(selected);
      var users := PostUsers(cs, posts[0], selected);
      var ids := Indices(users, index);
      IndexBijection(selected);
      forall u | u in users ensures u in selected {
        PostUsersMembership(cs, posts[0], selected, u);
      }
      if users != [] {
        PostIndices(cs, posts[0], selected, users[0]);
      }
      PostEntries(ids);
      TriplesOverEntries(cs, posts[1..], selected);
    }
  }

  lemma {:induction false} TriplesOverLength(cs: seq<Comment>, posts: seq<int>, selected: seq<string>, index: map<string, int>)
    requires forall a :: a in selected ==> a in index
    ensures |TriplesOver(cs, posts, selected, index)| == 2 * PairTotal(cs, posts, selected)
    decreases |posts|
  {
    if posts != [] {
      PostTriplesLength(Indices(PostUsers(cs, posts[0], selected), index));
      TriplesOverLength(cs, posts[1..], selected, index);
    }
  }

  // ---------------------------------------------------------------------
  // The script

  /** The comments the graph is built from: inside the window and by a
      selected author. */
  function GraphComments(data: seq<Comment>, selected: seq<string>): (cs: seq<Comment>)
    ensures |cs| <= |data|
    ensures forall c :: c in cs <==> c in data && InWindow(c, StartDate, EndDate) && c.author in selected
  {
    KeepBy(WindowComments(data, StartDate, EndDate), selected)
  }

  function KeepBy(cs: seq<Comment>, selected: seq<string>): seq<Comment> {
    Filter(cs, ByAuthorAmong(selected))
  }

  function ByAuthorAmong(selected: seq<string>): Comment -> bool {
    (c: Comment) => c.author in selected
  }

  /** The whole script on the loaded comments: the selected authors, the three
      coordinate lists, the matrix size and the reported edge count. */
  method BuildNetwork(data: seq<Comment>)
    returns (selected: seq<string>, rows: seq<int>, cols: seq<int>, values: seq<int>, numNodes: nat, numEdges: nat)
    ensures selected == SelectAuthors(data, StartDate, EndDate)
    ensures numNodes == |selected|
    ensures |rows| == |cols| == |values| && |rows| == 2 * numEdges
    ensures forall k :: 0 <= k < |rows| ==>
      rows[k] != cols[k] && 0 <= rows[k] < numNodes && 0 <= cols[k] < numNodes && values[k] == 1
    ensures forall u, v :: Weight(Zip(rows, cols, values), u, v) == Weight(Zip(rows, cols, values), v, u)
    ensures forall a, b :: a in selected && b in selected && a != b ==>
      Weight(Zip(rows, cols, values), AuthorToIndex(selected)[a], AuthorToIndex(selected)[b])
        == SharedPosts(GraphComments(data, selected), PostIds(GraphComments(data, selected)), a, b)
    ensures numEdges == PairTotal(GraphComments(data, selected), PostIds(GraphComments(data, selected)), selected)
  {
    var window := WindowComments(data, StartDate, EndDate);
    var ranked := RankedAuthors(window);
    selected := Filter(ranked, IsActive(window));
    var filtered := KeepBy(window, selected);
    var index := AuthorToIndex(selected);
    rows, cols, values := BuildEdges(filtered, selected, index);
    numNodes := |selected|;
    numEdges := |rows| / 2;

    SelectAuthorsCorrect(data, StartDate, EndDate);
    var posts := PostIds(filtered);
    TriplesOverLength(filtered, posts, selected, index);
    ghost var pairs := PairTotal(filtered, posts, selected);
    assert |rows| == |Zip(rows, cols, values)| == 2 * pairs;
    assert numEdges == pairs;
    TriplesOverEntries(filtered, posts, selected);
    var ts := Zip(rows, cols, values);
    forall k | 0 <= k < |rows|
      ensures rows[k] != cols[k] && 0 <= rows[k] < numNodes && 0 <= cols[k] < numNodes && values[k] == 1
    {
      assert ts[k] in ts;
    }
    forall u, v ensures Weight(ts, u, v) == Weight(ts, v, u) {
      TriplesOverSymmetric(filtered, posts, selected, index, u, v);
    }
    forall a, b | a in selected && b in selected && a != b
      ensures Weight(ts, index[a], index[b]) == SharedPosts(filtered, posts, a, b)
    {
      EdgeWeightIsSharedPosts(filtered, posts, selected, a, b);
    }
  }
}
