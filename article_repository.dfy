/** The PostgreSQL article repository (internal/article/repository.go):
    building each statement's argument list and placeholder numbering,
    inserting a row, and reading a row stream all-or-nothing. */
module ArticleRepository {
  import opened Errors
  import opened Numbers
  import opened Model
  import opened Store
  import opened Sql

  /** A filter's author becomes a WHERE clause only when it is not empty. */
  function AuthorClause(author: string): Option<string>
  {
    if author != "" then Some(author) else None
  }

  /** GetArticlesByID filters by author only for a non-nil filter with a
      non-empty author. */
  function ByIdAuthor(filter: Option<FilterValue>): Option<string>
  {
    if filter.Some? then AuthorClause(filter.value.author) else None
  }

  /** The list statement as GetArticles assembles it, appending arguments
      and advancing `argCount` as it goes. */
  method BuildListQuery(author: string, page: int, limit: int) returns (q: ListQuery, args: seq<Arg>)
    ensures args == ListArgs(AuthorClause(author), limit, PageOffset(page, limit))
    ensures NumberedInOrder(ListPlaceholders(q), args)
    ensures q.authorParam.Some? <==> author != ""
  {
    args := [];
    var argCount := 1;
    var authorParam: Option<nat> := None;
    if author != "" {
      authorParam := Some(argCount);
      args := args + [Text(author)];
      argCount := argCount + 1;
    }
    q := ListQuery(authorParam, argCount, argCount + 1);
    args := args + [Int(limit), Int(PageOffset(page, limit))];
  }

  /** The by-id statement: the ids are always $1, the author (if any) $2. */
  method BuildByIdQuery(filter: ArticleFilter?, ids: seq<string>) returns (q: ByIdQuery, args: seq<Arg>)
    ensures args == ByIdArgs(ids, ByIdAuthor(if filter == null then None else Some(filter.Value())))
    ensures NumberedInOrder(ByIdPlaceholders(q), args)
    ensures q.authorParam.Some? <==> (filter != null && filter.author != "")
  {
    args := [TextArray(ids)];
    q := ByIdQuery(1, None);
    if filter != null && filter.author != "" {
      q := ByIdQuery(1, Some(2));
      args := args + [Text(filter.author)];
    }
  }

  /** The `for rows.Next()` loop of both list methods: scan each row and
      append it; the first failing scan, or a stream error reported after
      the loop, discards everything read so far. */
  method ScanRows(rows: seq<Article>, fault: DbFault) returns (r: Result<seq<Article>>)
    requires !fault.QueryFails?
    ensures r == Scanned(rows, fault)
  {
    var articles: seq<Article> := [];
    var i := 0;
    while i < |rows|
      invariant 0 <= i <= |rows|
      invariant articles == rows[..i]
      invariant !(fault.ScanFails? && fault.row < i)
    {
      if fault.ScanFails? && fault.row == i {
        return Err(Db(fault.detail));
      }
      articles := articles + [rows[i]];
      i := i + 1;
    }
    if fault.IterationFails? {
      return Err(Db(fault.detail));
    }
    assert articles == rows;
    return Ok(articles);
  }

  /** What GetArticles returns for a filter value. */
  function ListOutcome(t: Tables, f: FilterValue, fault: DbFault): Result<seq<Article>>
  {
    if fault.QueryFails? then Err(Db(fault.detail))
    else
      var rows :- ListResult(t, AuthorClause(f.author), f.limit, PageOffset(f.page, f.limit));
      Scanned(rows, fault)
  }

  /** What GetArticlesByID returns. An empty id list is answered without a
      statement, so no database fault can touch it. */
  function ByIdOutcome(t: Tables, filter: Option<FilterValue>, ids: seq<string>, fault: DbFault): Result<seq<Article>>
  {
    if |ids| == 0 then Ok([])
    else if fault.QueryFails? then Err(Db(fault.detail))
    else Scanned(ByIdRows(t, ids, ByIdAuthor(filter)), fault)
  }

  const ForeignKeyViolation := "insert or update on table \"articles\" violates foreign key constraint"

  datatype Insertion = Insertion(result: Result<Article>, tables: Tables)

  /** `INSERT … RETURNING id, created_at`: the new row gets the next id and
      the given timestamp, and both are written back onto the record. */
  function InsertOutcome(t: Tables, a: Article, fault: Option<string>): Insertion
  {
    if fault.Some? then Insertion(Err(Db(fault.value)), t)
    else if FindAuthorById(t.authors, a.authorId).None? then Insertion(Err(Db(ForeignKeyViolation)), t)
    else
      var id := NthId(|t.articles|);
      Insertion(Ok(a.(id := id)), t.(articles := t.articles + [ArticleRow(id, a.title, a.body, a.authorId, a.createdAt)]))
  }

  /** CreateArticle either fails and leaves the tables alone, or appends one
      row and returns the same record with only its id replaced by a new,
      non-empty id; the store stays well formed either way. */
  lemma InsertionMeaning(t: Tables, a: Article, fault: Option<string>)
    requires WellFormed(t)
    ensures var ins := InsertOutcome(t, a, fault);
      && WellFormed(ins.tables)
      && ins.tables.authors == t.authors
      && (ins.result.Ok? <==> fault.None? && exists au :: au in t.authors && au.id == a.authorId)
      && (ins.result.Err? ==> ins.tables == t)
      && (ins.result.Ok? ==>
            && ins.result.value == a.(id := ins.result.value.id)
            && ins.result.value.id != ""
            && (forall r :: r in t.articles ==> r.id != ins.result.value.id)
            && ins.tables.articles == t.articles + [ArticleRow(ins.result.value.id, a.title, a.body, a.authorId, a.createdAt)])
  {
    NextIdIsFresh(t);
    if fault.None? && FindAuthorById(t.authors, a.authorId).Some? {
      AppendRowKeepsWellFormed(t, ArticleRow(NthId(|t.articles|), a.title, a.body, a.authorId, a.createdAt));
    }
  }

  /** Appending a row with the next id and an existing author keeps the
      store well formed. */
  lemma AppendRowKeepsWellFormed(t: Tables, row: ArticleRow)
    requires WellFormed(t)
    requires row.id == NthId(|t.articles|) && FindAuthorById(t.authors, row.authorId).Some?
    ensures WellFormed(t.(articles := t.articles + [row]))
  {
    var t' := t.(articles := t.articles + [row]);
    forall i | 0 <= i < |t'.articles|
      ensures t'.articles[i].id == NthId(i) && FindAuthorById(t'.authors, t'.articles[i].authorId).Some?
    {
      if i < |t.articles| {
        assert t'.articles[i] == t.articles[i];
      }
    }
  }

  class PostgresRepository {
    const db: Database

    constructor (db: Database)
      ensures this.db == db
    {
      this.db := db;
    }

    method CreateArticle(article: Article, fault: Option<string>) returns (r: Result<Article>)
      modifies db
      ensures r == InsertOutcome(old(db.tables), article, fault).result
      ensures db.tables == InsertOutcome(old(db.tables), article, fault).tables
    {
      if fault.Some? {
        return Err(Db(fault.value));
      }
      if FindAuthorById(db.tables.authors, article.authorId).None? {
        return Err(Db(ForeignKeyViolation));
      }
      var id := NthId(|db.tables.articles|);
      db.tables := db.tables.(articles := db.tables.articles + [ArticleRow(id, article.title, article.body, article.authorId, article.createdAt)]);
      r := Ok(article.(id := id));
    }

    method GetArticles(filter: ArticleFilter, fault: DbFault) returns (r: Result<seq<Article>>)
      ensures r == ListOutcome(db.tables, filter.Value(), fault)
    {
      var q, args := BuildListQuery(filter.author, filter.page, filter.limit);
      if fault.QueryFails? {
        return Err(Db(fault.detail));
      }
      var offset := PageOffset(filter.page, filter.limit);
      ListBindingIsFaithful(db.tables, q, AuthorClause(filter.author), filter.limit, offset);
      var rows := EvalList(db.tables, q, args);
      if rows.Err? {
        return Err(rows.error);
      }
      r := ScanRows(rows.value, fault);
    }

    method GetArticlesByID(filter: ArticleFilter?, ids: seq<string>, fault: DbFault) returns (r: Result<seq<Article>>)
      ensures r == ByIdOutcome(db.tables, if filter == null then None else Some(filter.Value()), ids, fault)
    {
      if |ids| == 0 {
        return Ok([]);
      }
      var q, args := BuildByIdQuery(filter, ids);
      if fault.QueryFails? {
        return Err(Db(fault.detail));
      }
      var author := ByIdAuthor(if filter == null then None else Some(filter.Value()));
      ByIdBindingIsFaithful(db.tables, q, ids, author);
      var rows := EvalById(db.tables, q, args);
      r := ScanRows(rows.value, fault);
    }
  }
}
