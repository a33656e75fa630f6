/** The relational system of record as rows: the `authors` and `articles`
    tables, the join the article queries read through, and what the two
    article SELECTs mean (filter, `ORDER BY created_at DESC`, LIMIT/OFFSET,
    `id = ANY(ids)`). */
module Store {
  import opened Errors
  import opened Numbers
  import opened Model

  /** One row of `articles(id, title, body, author_id, created_at)`. */
  datatype ArticleRow = ArticleRow(id: string, title: string, body: string, authorId: string, createdAt: int)

  /** Rows in insertion order. */
  datatype Tables = Tables(authors: seq<Author>, articles: seq<ArticleRow>)

  /** The id the database hands out to the k-th row of a table (k from 0). */
  function NthId(k: nat): (id: string)
    ensures id != ""
  {
    Render(k + 1)
  }

  lemma NthIdInjective(j: nat, k: nat)
    requires NthId(j) == NthId(k)
    ensures j == k
  {
    RenderInjective(j + 1, k + 1);
  }

  /** The first author with the given id (ids are unique in a well-formed store). */
  function FindAuthorById(authors: seq<Author>, id: string): (r: Option<Author>)
    ensures r.Some? ==> r.value in authors && r.value.id == id
    ensures r.None? ==> forall a :: a in authors ==> a.id != id
  {
    if authors == [] then None
    else if authors[0].id == id then Some(authors[0])
    else FindAuthorById(authors[1..], id)
  }

  /** What the store guarantees about its rows: ids are minted in insertion
      order and every article references an existing author (the foreign
      key from articles.author_id to authors.id). */
  ghost predicate WellFormed(t: Tables)
  {
    && (forall i :: 0 <= i < |t.authors| ==> t.authors[i].id == NthId(i))
    && (forall i :: 0 <= i < |t.articles| ==> t.articles[i].id == NthId(i))
    && (forall i :: 0 <= i < |t.articles| ==> FindAuthorById(t.authors, t.articles[i].authorId).Some?)
  }

  /** A minted id is new: no existing row carries it. */
  lemma NextIdIsFresh(t: Tables)
    requires WellFormed(t)
    ensures forall a :: a in t.authors ==> a.id != NthId(|t.authors|)
    ensures forall r :: r in t.articles ==> r.id != NthId(|t.articles|)
  {
    forall a | a in t.authors ensures a.id != NthId(|t.authors|) {
      var i :| 0 <= i < |t.authors| && t.authors[i] == a;
      if a.id == NthId(|t.authors|) { NthIdInjective(i, |t.authors|); }
    }
    forall r | r in t.articles ensures r.id != NthId(|t.articles|) {
      var i :| 0 <= i < |t.articles| && t.articles[i] == r;
      if r.id == NthId(|t.articles|) { NthIdInjective(i, |t.articles|); }
    }
  }

  /** The database the two repositories share. */
  class Database {
    var tables: Tables

    constructor ()
      ensures tables == Tables([], [])
    {
      tables := Tables([], []);
    }
  }

  // ---- the join every article query reads through ----

  /** One row of `articles a JOIN authors ON a.author_id = authors.id`, as
      the list queries scan it: AuthorID is not selected, so it stays "". */
  function JoinRow(row: ArticleRow, authors: seq<Author>): (r: Option<Article>)
    ensures r.None? <==> forall a :: a in authors ==> a.id != row.authorId
    ensures r.Some? ==>
      && r.value.id == row.id && r.value.title == row.title && r.value.body == row.body
      && r.value.createdAt == row.createdAt && r.value.authorId == ""
      && r.value.author in authors && r.value.author.id == row.authorId
  {
    match FindAuthorById(authors, row.authorId)
    case None => None
    case Some(a) => Some(Article(row.id, row.title, row.body, "", a, row.createdAt))
  }

  /** The inner join keeps, in row order, the joined form of every article
      row whose author exists and drops the others. */
  function JoinRows(rows: seq<ArticleRow>, authors: seq<Author>): (r: seq<Article>)
    ensures |r| <= |rows|
    ensures forall x :: x in r <==> exists i :: 0 <= i < |rows| && JoinRow(rows[i], authors) == Some(x)
  {
    if rows == [] then []
    else
      (match JoinRow(rows[0], authors) case None => [] case Some(x) => [x])
      + JoinRows(rows[1..], authors)
  }

  function Joined(t: Tables): seq<Article>
  {
    JoinRows(t.articles, t.authors)
  }

  /** Appending a row to `articles` appends its joined row, if any. */
  lemma {:induction false} JoinRowsAppend(rows: seq<ArticleRow>, r: ArticleRow, authors: seq<Author>)
    ensures JoinRows(rows + [r], authors)
      == JoinRows(rows, authors) + (match JoinRow(r, authors) case None => [] case Some(x) => [x])
  {
    if rows != [] {
      assert (rows + [r])[1..] == rows[1..] + [r];
      JoinRowsAppend(rows[1..], r, authors);
    }
  }

  /** With ids minted in order, looking an author up by id finds exactly
      that author. */
  lemma FindAuthorByIdFindsMember(authors: seq<Author>, a: Author)
    requires forall i :: 0 <= i < |authors| ==> authors[i].id == NthId(i)
    requires a in authors
    ensures FindAuthorById(authors, a.id) == Some(a)
  {
    var b := FindAuthorById(authors, a.id).value;
    var i :| 0 <= i < |authors| && authors[i] == a;
    var j :| 0 <= j < |authors| && authors[j] == b;
    NthIdInjective(i, j);
  }

  // ---- filters ----

  /** `WHERE authors.name = $n` when an author is given, no clause otherwise. */
  predicate ByAuthor(x: Article, author: Option<string>)
  {
    author.None? || x.author.name == author.value
  }

  function FilterByAuthor(s: seq<Article>, author: Option<string>): (r: seq<Article>)
    ensures forall x :: x in r <==> x in s && ByAuthor(x, author)
  {
    if s == [] then []
    else (if ByAuthor(s[0], author) then [s[0]] else []) + FilterByAuthor(s[1..], author)
  }

  /** `a.id = ANY($1)`. */
  function FilterByIds(s: seq<Article>, ids: seq<string>): (r: seq<Article>)
    ensures forall x :: x in r <==> x in s && x.id in ids
  {
    if s == [] then []
    else (if s[0].id in ids then [s[0]] else []) + FilterByIds(s[1..], ids)
  }

  // ---- ORDER BY created_at DESC ----

  predicate SortedByRecency(s: seq<Article>)
  {
    forall i, j :: 0 <= i < j < |s| ==> s[i].createdAt >= s[j].createdAt
  }

  /** Place `x` after every row at least as recent. */
  function Insert(x: Article, s: seq<Article>): seq<Article>
  {
    if s == [] then [x]
    else if x.createdAt > s[0].createdAt then [x] + s
    else [s[0]] + Insert(x, s[1..])
  }

  /** Newest first. Rows with equal timestamps, which SQL leaves in no
      particular order, come out in a fixed order here. */
  function ByRecency(s: seq<Article>): seq<Article>
  {
    if s == [] then [] else Insert(s[0], ByRecency(s[1..]))
  }

  lemma {:induction false} InsertPermutes(x: Article, s: seq<Article>)
    ensures multiset(Insert(x, s)) == multiset(s) + multiset{x}
  {
    if s != [] && x.createdAt <= s[0].createdAt {
      InsertPermutes(x, s[1..]);
      assert s == [s[0]] + s[1..];
    }
  }

  /** Every row of `s` is at most as recent as `bound`. */
  predicate NoNewerThan(s: seq<Article>, bound: int)
  {
    forall k :: 0 <= k < |s| ==> s[k].createdAt <= bound
  }

  lemma {:induction false} InsertNoNewer(x: Article, s: seq<Article>, bound: int)
    requires NoNewerThan(s, bound) && x.createdAt <= bound
    ensures NoNewerThan(Insert(x, s), bound)
  {
    if s != [] && x.createdAt <= s[0].createdAt {
      InsertNoNewer(x, s[1..], bound);
      assert Insert(x, s) == [s[0]] + Insert(x, s[1..]);
    }
  }

  lemma PrependKeepsOrder(y: Article, rest: seq<Article>)
    requires SortedByRecency(rest) && NoNewerThan(rest, y.createdAt)
    ensures SortedByRecency([y] + rest)
  {
    var r := [y] + rest;
    forall i, j | 0 <= i < j < |r| ensures r[i].createdAt >= r[j].createdAt {
      assert r[j] == rest[j - 1];
      if i > 0 { assert r[i] == rest[i - 1]; }
    }
  }

  lemma {:induction false} InsertKeepsOrder(x: Article, s: seq<Article>)
    requires SortedByRecency(s)
    ensures SortedByRecency(Insert(x, s))
  {
    if s == [] {
    } else if x.createdAt > s[0].createdAt {
      PrependKeepsOrder(x, s);
    } else {
      InsertKeepsOrder(x, s[1..]);
      InsertNoNewer(x, s[1..], s[0].createdAt);
      PrependKeepsOrder(s[0], Insert(x, s[1..]));
    }
  }

  /** ByRecency is a sort: ordered newest first, and a permutation. */
  lemma {:induction false} ByRecencySorts(s: seq<Article>)
    ensures SortedByRecency(ByRecency(s))
    ensures multiset(ByRecency(s)) == multiset(s)
  {
    if s != [] {
      ByRecencySorts(s[1..]);
      InsertKeepsOrder(s[0], ByRecency(s[1..]));
      InsertPermutes(s[0], ByRecency(s[1..]));
      assert s == [s[0]] + s[1..];
    }
  }

  // ---- LIMIT / OFFSET ----

  function Min(a: int, b: int): int { if a <= b then a else b }

  /** `LIMIT limit OFFSET offset` over an already ordered result. */
  function Window(s: seq<Article>, offset: nat, limit: nat): (w: seq<Article>)
    ensures |w| <= limit
    ensures |w| == Min(limit, |s| - Min(offset, |s|))
    ensures offset == 0 && |s| <= limit ==> w == s
    ensures forall k :: 0 <= k < |w| ==> offset + k < |s| && w[k] == s[offset + k]
  {
    s[Min(offset, |s|)..Min(offset + limit, |s|)]
  }

  // ---- what the two SELECTs return ----

  /** GetArticles' statement: author filter, newest first, LIMIT/OFFSET. */
  function ListRows(t: Tables, author: Option<string>, limit: nat, offset: nat): seq<Article>
  {
    Window(ByRecency(FilterByAuthor(Joined(t), author)), offset, limit)
  }

  /** GetArticlesByID's statement: id in the list, optional author filter,
      newest first. The order of `ids` plays no part. */
  function ByIdRows(t: Tables, ids: seq<string>, author: Option<string>): seq<Article>
  {
    ByRecency(FilterByAuthor(FilterByIds(Joined(t), ids), author))
  }

  /** A page of a newest-first ordering of `m`: as many rows as the window
      leaves, in order, each from `m`, and all of `m` on a first page that
      holds it. */
  lemma {:induction false} PageOfSorted(m: seq<Article>, limit: nat, offset: nat)
    ensures var w := Window(ByRecency(m), offset, limit);
      && |w| == Min(limit, |m| - Min(offset, |m|))
      && SortedByRecency(w)
      && (forall x :: x in w ==> x in m)
      && (offset == 0 && |m| <= limit ==> forall x :: x in m ==> x in w)
  {
    var sorted := ByRecency(m);
    ByRecencySorts(m);
    assert |multiset(sorted)| == |multiset(m)|;
    var w := Window(sorted, offset, limit);
    forall x | x in w ensures x in m {
      assert x in multiset(sorted);
    }
    if offset == 0 && |m| <= limit {
      forall x | x in m ensures x in w {
        assert x in multiset(m);
      }
    }
  }

  /** The list statement returns `limit` rows, or as many as remain after
      skipping `offset` matching rows when fewer are left; newest first,
      each a joined row by the requested author; the first page holds every
      such row when they all fit. */
  lemma ListRowsMeaning(t: Tables, author: Option<string>, limit: nat, offset: nat)
    ensures |ListRows(t, author, limit, offset)| <= limit
    ensures var m := FilterByAuthor(Joined(t), author);
      |ListRows(t, author, limit, offset)| == Min(limit, |m| - Min(offset, |m|))
    ensures SortedByRecency(ListRows(t, author, limit, offset))
    ensures forall x :: x in ListRows(t, author, limit, offset) ==> x in Joined(t) && ByAuthor(x, author)
    ensures offset == 0 && |FilterByAuthor(Joined(t), author)| <= limit ==>
      forall x :: x in Joined(t) && ByAuthor(x, author) ==> x in ListRows(t, author, limit, offset)
  {
    PageOfSorted(FilterByAuthor(Joined(t), author), limit, offset);
  }

  /** A joined row by the requested author that is strictly newer than
      every other joined row heads the first page of the list statement. */
  lemma NewestHeadsFirstPage(t: Tables, x: Article, author: Option<string>, limit: nat)
    requires x in Joined(t) && ByAuthor(x, author)
    requires forall y :: y in Joined(t) ==> y == x || y.createdAt < x.createdAt
    requires limit >= 1
    ensures |ListRows(t, author, limit, 0)| >= 1
    ensures ListRows(t, author, limit, 0)[0] == x
  {
    var m := FilterByAuthor(Joined(t), author);
    var sorted := ByRecency(m);
    ByRecencySorts(m);
    assert x in multiset(sorted);
    var j :| 0 <= j < |sorted| && sorted[j] == x;
    assert sorted[0] in multiset(m);
    assert sorted[0].createdAt >= x.createdAt;
    assert sorted[0] == x;
  }

  /** The by-id statement returns exactly the joined rows whose id is listed
      and whose author matches, newest first. */
  lemma ByIdRowsMeaning(t: Tables, ids: seq<string>, author: Option<string>)
    ensures SortedByRecency(ByIdRows(t, ids, author))
    ensures forall x :: x in ByIdRows(t, ids, author) <==> x in Joined(t) && x.id in ids && ByAuthor(x, author)
  {
    var selected := FilterByAuthor(FilterByIds(Joined(t), ids), author);
    ByRecencySorts(selected);
    forall x ensures x in ByIdRows(t, ids, author) <==> x in selected {
      assert x in ByIdRows(t, ids, author) <==> x in multiset(ByIdRows(t, ids, author));
      assert x in selected <==> x in multiset(selected);
    }
  }

  lemma {:induction false} FilterByIdsUsesMembership(s: seq<Article>, ids1: seq<string>, ids2: seq<string>)
    requires forall id :: id in ids1 <==> id in ids2
    ensures FilterByIds(s, ids1) == FilterByIds(s, ids2)
  {
    if s != [] {
      FilterByIdsUsesMembership(s[1..], ids1, ids2);
    }
  }

  /** Reordering or repeating the ids changes nothing: the result order
      comes from created_at, not from the id list. */
  lemma ByIdRowsIgnoreIdOrder(t: Tables, ids1: seq<string>, ids2: seq<string>, author: Option<string>)
    requires forall id :: id in ids1 <==> id in ids2
    ensures ByIdRows(t, ids1, author) == ByIdRows(t, ids2, author)
  {
    FilterByIdsUsesMembership(Joined(t), ids1, ids2);
  }
}
