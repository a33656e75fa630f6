/** The article coordinator (internal/article/service.go): the write path
    (resolve the author, persist the article, index it) and the read path
    (normalise the filter, then either search and fetch the hits from the
    store, or list from the store). Every collaborator outcome the code
    branches on is a parameter; the calls made are recorded in a ghost
    trace. */
module ArticleService {
  import opened Errors
  import opened Model
  import opened Store
  import opened Sql
  import opened Search
  import ArticleRepository
  import AuthorService

  // ---- pagination defaults ----

  /** A page below 1 becomes 1; any other page is kept. */
  function NormalizePage(page: int): (p: int)
    ensures p >= 1
    ensures page >= 1 ==> p == page
    ensures page <= 0 ==> p == 1
  {
    if page <= 0 then 1 else page
  }

  /** A limit below 1 becomes the default 10, one above 100 the cap 100;
      any limit from 1 to 100 is kept. */
  function NormalizeLimit(limit: int): (l: int)
    ensures 1 <= l <= 100
    ensures 1 <= limit <= 100 ==> l == limit
    ensures limit <= 0 ==> l == 10
    ensures limit > 100 ==> l == 100
  {
    if limit <= 0 then 10 else if limit > 100 then 100 else limit
  }

  /** The filter after GetArticles has normalised it in place. */
  function Normalize(f: FilterValue): FilterValue
  {
    f.(page := NormalizePage(f.page), limit := NormalizeLimit(f.limit))
  }

  /** Normalising keeps query and author, lands page and limit in range,
      and a second normalisation changes nothing. */
  lemma NormalizeMeaning(f: FilterValue)
    ensures Normalize(f).query == f.query && Normalize(f).author == f.author
    ensures Normalize(f).page >= 1 && 1 <= Normalize(f).limit <= 100
    ensures Normalize(Normalize(f)) == Normalize(f)
  {
  }

  // ---- collaborator calls ----

  /** A call the coordinator makes on a collaborator. */
  datatype Call =
    | ResolveCall(name: string)
    | CreateCall(draft: Article)
    | IndexCall(index: string, docId: string, doc: SearchDocument)
    | SearchCall(index: string, query: string, fields: seq<string>, from: int, size: int, sortAsc: bool, sortBy: string)
    | ListCall(filter: FilterValue)
    | ByIdCall(filter: FilterValue, ids: seq<string>)

  /** The fields the multi-match search runs over. */
  const SearchFields: seq<string> := ["title", "body"]
  const SortField := "published_at"

  // ---- the write path ----

  /** The failures each collaborator of PostArticle may report: author
      lookup, author insert, article insert, indexing. */
  datatype WriteFaults = WriteFaults(lookup: Option<string>, createAuthor: Option<string>, insert: Option<string>, index: Option<string>)

  /** The record handed to CreateArticle: the request's title and body, the
      resolved author's id, a snapshot naming the author as the request
      did, and the current time. */
  function Draft(req: CreateArticleRequest, author: Author, now: int): Article
  {
    Article("", req.title, req.body, author.id, Author(author.id, req.author), now)
  }

  /** The search document for a stored article. */
  function DocumentOf(a: Article): SearchDocument
  {
    SearchDocument(a.id, a.title, a.body, a.author.name, a.createdAt)
  }

  datatype WriteEffect = WriteEffect(
    result: Result<Article>,
    tables: Tables,
    docs: map<(string, string), SearchDocument>,
    calls: seq<Call>)

  /** PostArticle as a function of the store, the index and the
      collaborators' outcomes. */
  function WritePath(t: Tables, docs: map<(string, string), SearchDocument>, req: CreateArticleRequest, now: int, f: WriteFaults): WriteEffect
  {
    var res := AuthorService.Resolve(t.authors, req.author, f.lookup, f.createAuthor);
    var t1 := t.(authors := res.authors);
    var resolve := [ResolveCall(req.author)];
    match res.result
    case Err(e) => WriteEffect(Err(Wrapped(ResolvingAuthor, e)), t1, docs, resolve)
    case Ok(author) =>
      var draft := Draft(req, author, now);
      var ins := ArticleRepository.InsertOutcome(t1, draft, f.insert);
      var create := resolve + [CreateCall(draft)];
      match ins.result
      case Err(e) => WriteEffect(Err(Wrapped(PostingArticle, e)), ins.tables, docs, create)
      case Ok(created) =>
        var doc := DocumentOf(created);
        var docs' := if f.index.None? then docs[(ArticleIndexName, created.id) := doc] else docs;
        WriteEffect(Ok(created), ins.tables, docs', create + [IndexCall(ArticleIndexName, created.id, doc)])
  }

  /** Author resolution fails: the error wraps the resolver's sentinel
      under "failed to resolve author", nothing is stored or indexed, and
      neither CreateArticle nor IndexDocument is called. */
  lemma ResolutionFailureStops(t: Tables, docs: map<(string, string), SearchDocument>, req: CreateArticleRequest, now: int, f: WriteFaults)
    requires AuthorService.Resolve(t.authors, req.author, f.lookup, f.createAuthor).result.Err?
    ensures var w := WritePath(t, docs, req, now, f);
      && w.result.Err?
      && Is(w.result.error, InternalDb)
      && Contains(Message(w.result.error), "failed to resolve author")
      && w.tables == t && w.docs == docs
      && w.calls == [ResolveCall(req.author)]
  {
    AuthorService.ResolveMeaning(t.authors, req.author, f.lookup, f.createAuthor);
    WrappedMessage(ResolvingAuthor, InternalDb);
  }

  /** Once the author resolves, the article insert is attempted with a
      record that carries the request's title and body, the resolved
      author's id both as AuthorID and in the snapshot, the request's
      author name and the current time; if the insert fails the error says
      "failed to post article", nothing is indexed and no article is
      stored, but an author created on the way stays. */
  lemma DraftCarriesRequest(t: Tables, docs: map<(string, string), SearchDocument>, req: CreateArticleRequest, now: int, f: WriteFaults)
    requires AuthorService.Resolve(t.authors, req.author, f.lookup, f.createAuthor).result.Ok?
    ensures var w := WritePath(t, docs, req, now, f);
      var author := AuthorService.Resolve(t.authors, req.author, f.lookup, f.createAuthor).result.value;
      && |w.calls| >= 2
      && w.calls[1].CreateCall?
      && w.calls[1].draft.title == req.title && w.calls[1].draft.body == req.body
      && w.calls[1].draft.authorId == author.id
      && w.calls[1].draft.author == Author(author.id, req.author)
      && w.calls[1].draft.createdAt == now
      && (w.result.Err? ==>
            && w.calls == [ResolveCall(req.author), w.calls[1]]
            && Contains(Message(w.result.error), "failed to post article")
            && w.docs == docs
            && w.tables.articles == t.articles
            && w.tables.authors == AuthorService.Resolve(t.authors, req.author, f.lookup, f.createAuthor).authors)
  {
    var w := WritePath(t, docs, req, now, f);
    if w.result.Err? {
      WrappedMessage(PostingArticle, w.result.error.cause);
    }
  }

  /** An indexing failure is logged and ignored: the result, the store and
      the calls made are the same as when indexing succeeds. */
  lemma IndexingFailureIsIgnored(t: Tables, docs: map<(string, string), SearchDocument>, req: CreateArticleRequest, now: int, f: WriteFaults, detail: string)
    ensures var failed := WritePath(t, docs, req, now, f.(index := Some(detail)));
      var indexed := WritePath(t, docs, req, now, f.(index := None));
      && failed.result == indexed.result
      && failed.tables == indexed.tables
      && failed.calls == indexed.calls
      && failed.docs == docs
  {
  }

  /** A successful post returns the stored article with a new id, makes
      exactly one IndexDocument call keyed by that id with the article's
      id, title, body, author name and time, and (when indexing succeeds)
      upserts that document into the "articles" index, changing nothing
      else there. */
  lemma SuccessIndexesTheArticle(t: Tables, docs: map<(string, string), SearchDocument>, req: CreateArticleRequest, now: int, f: WriteFaults)
    requires WritePath(t, docs, req, now, f).result.Ok?
    ensures var w := WritePath(t, docs, req, now, f);
      var a := w.result.value;
      && |w.calls| == 3
      && w.calls[2] == IndexCall(ArticleIndexName, a.id, SearchDocument(a.id, a.title, a.body, a.author.name, a.createdAt))
      && (forall k :: 0 <= k < 2 ==> !w.calls[k].IndexCall?)
      && (f.index.None? ==> w.docs == docs[(ArticleIndexName, a.id) := DocumentOf(a)])
      && a.id != ""
  {
  }

  /** The steps of a successful post: resolution succeeded, the insert of
      the draft succeeded, and the post returns what the insert returned. */
  lemma SuccessfulWriteSteps(t: Tables, docs: map<(string, string), SearchDocument>, req: CreateArticleRequest, now: int, f: WriteFaults)
    requires WritePath(t, docs, req, now, f).result.Ok?
    ensures var res := AuthorService.Resolve(t.authors, req.author, f.lookup, f.createAuthor);
      && res.result.Ok?
      && var ins := ArticleRepository.InsertOutcome(t.(authors := res.authors), Draft(req, res.result.value, now), f.insert);
      && ins.result.Ok?
      && WritePath(t, docs, req, now, f).result == ins.result
      && WritePath(t, docs, req, now, f).tables == ins.tables
  {
  }

  /** End to end on a well-formed store: a successful post echoes the
      request, its author snapshot is a stored author with the requested
      name, the store stays well formed, and fetching the new id returns
      the article (with AuthorID blank, as the join scans it). */
  lemma CreatedArticleIsStored(t: Tables, docs: map<(string, string), SearchDocument>, req: CreateArticleRequest, now: int, f: WriteFaults)
    requires WellFormed(t)
    requires WritePath(t, docs, req, now, f).result.Ok?
    ensures var w := WritePath(t, docs, req, now, f);
      var a := w.result.value;
      && WellFormed(w.tables)
      && a.title == req.title && a.body == req.body && a.createdAt == now
      && a.author.name == req.author && a.authorId == a.author.id
      && a.author in w.tables.authors
      && ArticleRepository.ByIdOutcome(w.tables, None, [a.id], Healthy).Ok?
      && a.(authorId := "") in ArticleRepository.ByIdOutcome(w.tables, None, [a.id], Healthy).value
  {
    SuccessfulWriteSteps(t, docs, req, now, f);
    var res := AuthorService.Resolve(t.authors, req.author, f.lookup, f.createAuthor);
    AuthorService.ResolveMeaning(t.authors, req.author, f.lookup, f.createAuthor);
    AuthorService.ResolveKeepsWellFormed(t, req.author, f.lookup, f.createAuthor);
    InsertedDraftIsStored(t.(authors := res.authors), res.result.value, req, now, f.insert);
  }

  /** Listing by the author right after a successful post, with no query,
      shows the new article first on the first page, provided the clock has
      moved past every stored article (SQL leaves equal timestamps in no
      particular order). */
  lemma PostedArticleListsFirst(t: Tables, docs: map<(string, string), SearchDocument>, req: CreateArticleRequest, now: int, f: WriteFaults, limit: nat)
    requires WellFormed(t)
    requires WritePath(t, docs, req, now, f).result.Ok?
    requires forall r :: r in t.articles ==> r.createdAt < now
    requires limit >= 1
    ensures var w := WritePath(t, docs, req, now, f);
      var page := ListRows(w.tables, Some(req.author), limit, 0);
      |page| >= 1 && page[0] == w.result.value.(authorId := "")
  {
    SuccessfulWriteSteps(t, docs, req, now, f);
    var res := AuthorService.Resolve(t.authors, req.author, f.lookup, f.createAuthor);
    AuthorService.ResolveMeaning(t.authors, req.author, f.lookup, f.createAuthor);
    AuthorService.ResolveKeepsWellFormed(t, req.author, f.lookup, f.createAuthor);
    InsertedDraftListsFirst(t.(authors := res.authors), res.result.value, req, now, f.insert, limit);
  }

  /** The insert step of PostedArticleListsFirst, on its own. */
  lemma InsertedDraftListsFirst(t1: Tables, author: Author, req: CreateArticleRequest, now: int, fault: Option<string>, limit: nat)
    requires WellFormed(t1) && author in t1.authors && author.name == req.author
    requires ArticleRepository.InsertOutcome(t1, Draft(req, author, now), fault).result.Ok?
    requires forall r :: r in t1.articles ==> r.createdAt < now
    requires limit >= 1
    ensures var ins := ArticleRepository.InsertOutcome(t1, Draft(req, author, now), fault);
      var page := ListRows(ins.tables, Some(req.author), limit, 0);
      |page| >= 1 && page[0] == ins.result.value.(authorId := "")
  {
    var draft := Draft(req, author, now);
    ArticleRepository.InsertionMeaning(t1, draft, fault);
    var ins := ArticleRepository.InsertOutcome(t1, draft, fault);
    var a := ins.result.value;
    var x := a.(authorId := "");
    var row := ArticleRow(a.id, draft.title, draft.body, draft.authorId, draft.createdAt);
    assert author == Author(author.id, req.author);
    FindAuthorByIdFindsMember(ins.tables.authors, author);
    assert JoinRow(row, ins.tables.authors) == Some(x);
    AppendedRowIsNewest(t1.articles, row, ins.tables.authors, x);
    NewestHeadsFirstPage(ins.tables, x, Some(req.author), limit);
  }

  /** A row appended after strictly older rows joins to the one newest
      joined article. */
  lemma AppendedRowIsNewest(rows: seq<ArticleRow>, row: ArticleRow, authors: seq<Author>, x: Article)
    requires JoinRow(row, authors) == Some(x)
    requires forall r :: r in rows ==> r.createdAt < row.createdAt
    ensures x in JoinRows(rows + [row], authors)
    ensures forall y :: y in JoinRows(rows + [row], authors) ==> y == x || y.createdAt < x.createdAt
  {
    JoinRowsAppend(rows, row, authors);
    var all := rows + [row];
    forall y | y in JoinRows(all, authors) ensures y == x || y.createdAt < x.createdAt {
      var i :| 0 <= i < |all| && JoinRow(all[i], authors) == Some(y);
      if i < |rows| {
        assert all[i] == rows[i];
      } else {
        assert all[i] == row;
      }
    }
  }

  /** The insert step of a post, on its own: the draft for a stored author
      with the requested name, once inserted, can be fetched back by id. */
  lemma InsertedDraftIsStored(t1: Tables, author: Author, req: CreateArticleRequest, now: int, fault: Option<string>)
    requires WellFormed(t1) && author in t1.authors && author.name == req.author
    requires ArticleRepository.InsertOutcome(t1, Draft(req, author, now), fault).result.Ok?
    ensures var ins := ArticleRepository.InsertOutcome(t1, Draft(req, author, now), fault);
      var a := ins.result.value;
      && WellFormed(ins.tables)
      && a.title == req.title && a.body == req.body && a.createdAt == now
      && a.author.name == req.author && a.authorId == a.author.id
      && a.author in ins.tables.authors
      && ArticleRepository.ByIdOutcome(ins.tables, None, [a.id], Healthy).Ok?
      && a.(authorId := "") in ArticleRepository.ByIdOutcome(ins.tables, None, [a.id], Healthy).value
  {
    var draft := Draft(req, author, now);
    ArticleRepository.InsertionMeaning(t1, draft, fault);
    var ins := ArticleRepository.InsertOutcome(t1, draft, fault);
    var a := ins.result.value;
    assert author == Author(author.id, req.author);
    CreatedRowJoins(t1, ins.tables, draft, a, author, req.author);
    JoinedRowFetchedById(ins.tables, a.(authorId := ""));
  }

  /** A joined row comes back when its own id is fetched from a healthy
      store. */
  lemma JoinedRowFetchedById(t: Tables, x: Article)
    requires x in Joined(t)
    ensures ArticleRepository.ByIdOutcome(t, None, [x.id], Healthy) == Ok(ByIdRows(t, [x.id], None))
    ensures x in ByIdRows(t, [x.id], None)
  {
    ByIdRowsMeaning(t, [x.id], None);
  }

  /** The row an insert appends joins back to the inserted record, with
      AuthorID blank. */
  lemma CreatedRowJoins(t1: Tables, t2: Tables, draft: Article, a: Article, author: Author, name: string)
    requires WellFormed(t2) && t2.authors == t1.authors
    requires author in t1.authors && author.name == name
    requires draft.authorId == author.id && draft.author == Author(author.id, name)
    requires a == draft.(id := a.id)
    requires t2.articles == t1.articles + [ArticleRow(a.id, draft.title, draft.body, draft.authorId, draft.createdAt)]
    ensures a.(authorId := "") in Joined(t2)
  {
    var row := ArticleRow(a.id, draft.title, draft.body, draft.authorId, draft.createdAt);
    FindAuthorByIdFindsMember(t2.authors, author);
    assert JoinRow(row, t2.authors) == Some(a.(authorId := ""));
    JoinRowsAppend(t1.articles, row, t2.authors);
  }

  // ---- the read path ----

  datatype ReadEffect = ReadEffect(result: Result<seq<Article>>, calls: seq<Call>)

  /** The search request the query path sends for a normalised filter:
      offset `(page-1)*limit` in Go's int, size `limit`, descending on
      "published_at". */
  function SearchRequest(f: FilterValue): Call
  {
    SearchCall(ArticleIndexName, f.query, SearchFields, PageOffset(f.page, f.limit), f.limit, false, SortField)
  }

  /** GetArticles as a function of the store, the caller's filter, the
      search engine's answer and the store's read fault. */
  function ReadPath(t: Tables, f0: FilterValue, search: Result<SearchResult>, fault: DbFault): ReadEffect
  {
    var f := Normalize(f0);
    if f.query != "" then
      match search
      case Err(e) => ReadEffect(Err(Wrapped(SearchingArticles, e)), [SearchRequest(f)])
      case Ok(sr) =>
        if sr.totalHits > 0 then
          var ids := HitIdsOf(sr.hits);
          ReadEffect(Staged(RetrievingDetails, ArticleRepository.ByIdOutcome(t, Some(f), ids, fault)), [SearchRequest(f), ByIdCall(f, ids)])
        else ReadEffect(Ok([]), [SearchRequest(f)])
    else
      ReadEffect(Staged(GettingArticles, ArticleRepository.ListOutcome(t, f, fault)), [ListCall(f)])
  }

  /** A non-empty query goes to the search engine first, with the
      normalised window, and never to the relational list. */
  lemma QueryGoesToSearch(t: Tables, f0: FilterValue, search: Result<SearchResult>, fault: DbFault)
    requires f0.query != ""
    ensures var p := ReadPath(t, f0, search, fault);
      && p.calls[0] == SearchCall(ArticleIndexName, f0.query, ["title", "body"],
                                  PageOffset(NormalizePage(f0.page), NormalizeLimit(f0.limit)),
                                  NormalizeLimit(f0.limit), false, "published_at")
      && forall k :: 0 <= k < |p.calls| ==> !p.calls[k].ListCall?
  {
  }

  /** An empty query makes exactly one call, the relational list with the
      normalised filter, and returns its outcome (errors wrapped as
      "failed to get articles"). */
  lemma EmptyQueryListsFromStore(t: Tables, f0: FilterValue, search: Result<SearchResult>, fault: DbFault)
    requires f0.query == ""
    ensures var p := ReadPath(t, f0, search, fault);
      var listed := ArticleRepository.ListOutcome(t, Normalize(f0), fault);
      && p.calls == [ListCall(Normalize(f0))]
      && (listed.Ok? ==> p.result == listed)
      && (listed.Err? ==>
            p.result.Err? && Is(p.result.error, listed.error)
            && Contains(Message(p.result.error), "failed to get articles"))
  {
    var listed := ArticleRepository.ListOutcome(t, Normalize(f0), fault);
    if listed.Err? {
      WrappedMessage(GettingArticles, listed.error);
    }
  }

  /** A failed search is the answer: "failed to search articles", wrapping
      the engine's error, and no store call at all. */
  lemma SearchFailureHasNoFallback(t: Tables, f0: FilterValue, e: Error, fault: DbFault)
    requires f0.query != ""
    ensures var p := ReadPath(t, f0, Err(e), fault);
      && p.result.Err? && Is(p.result.error, e)
      && Contains(Message(p.result.error), "failed to search articles")
      && p.calls == [SearchRequest(Normalize(f0))]
  {
    WrappedMessage(SearchingArticles, e);
  }

  /** Zero total hits: an empty list and no store fetch. Otherwise the store
      is asked for the hit ids in hit order, and its result is returned
      as is, or its error wrapped as "failed to retrieve articles
      details". */
  lemma HitsAreFetchedInOrder(t: Tables, f0: FilterValue, sr: SearchResult, fault: DbFault)
    requires f0.query != ""
    ensures var p := ReadPath(t, f0, Ok(sr), fault);
      && (sr.totalHits <= 0 ==> p == ReadEffect(Ok([]), [SearchRequest(Normalize(f0))]))
      && (sr.totalHits > 0 ==>
            var fetched := ArticleRepository.ByIdOutcome(t, Some(Normalize(f0)), HitIdsOf(sr.hits), fault);
            && |p.calls| == 2
            && p.calls[1].ByIdCall?
            && |p.calls[1].ids| == |sr.hits|
            && (forall k :: 0 <= k < |sr.hits| ==> p.calls[1].ids[k] == sr.hits[k].id)
            && (fetched.Ok? ==> p.result == fetched)
            && (fetched.Err? ==>
                  p.result.Err? && Is(p.result.error, fetched.error)
                  && Contains(Message(p.result.error), "failed to retrieve articles details")))
  {
    if sr.totalHits > 0 {
      var fetched := ArticleRepository.ByIdOutcome(t, Some(Normalize(f0)), HitIdsOf(sr.hits), fault);
      if fetched.Err? {
        WrappedMessage(RetrievingDetails, fetched.error);
      }
    }
  }

  /** With a healthy store, the query path returns exactly the stored
      articles among the hits that match the author filter, newest first;
      the engine's hit order plays no part. */
  lemma QueryPathResult(t: Tables, f0: FilterValue, sr: SearchResult)
    requires f0.query != "" && sr.totalHits > 0
    ensures var p := ReadPath(t, f0, Ok(sr), Healthy);
      && p.result.Ok?
      && SortedByRecency(p.result.value)
      && forall x :: x in p.result.value <==>
           x in Joined(t) && x.id in HitIdsOf(sr.hits) && ByAuthor(x, ArticleRepository.AuthorClause(f0.author))
  {
    ByIdRowsMeaning(t, HitIdsOf(sr.hits), ArticleRepository.AuthorClause(f0.author));
  }

  /** A concrete store with two articles by one author: the engine ranks
      the older one first, the answer lists the newer one first. */
  lemma HitOrderIsNotKept()
    ensures var ada := Author("1", "Ada");
      var t := Tables([ada], [ArticleRow("1", "Old", "x", "1", 1), ArticleRow("2", "New", "y", "1", 2)]);
      ReadPath(t, FilterValue("go", "", 1, 10), Ok(SearchResult(2, [Hit("1"), Hit("2")])), Healthy).result
        == Ok([Article("2", "New", "y", "", ada, 2), Article("1", "Old", "x", "", ada, 1)])
  {
    var ada := Author("1", "Ada");
    var t := Tables([ada], [ArticleRow("1", "Old", "x", "1", 1), ArticleRow("2", "New", "y", "1", 2)]);
    var older := Article("1", "Old", "x", "", ada, 1);
    var newer := Article("2", "New", "y", "", ada, 2);
    assert JoinRows(t.articles[1..], [ada]) == [newer];
    assert Joined(t) == [older, newer];
    assert HitIdsOf([Hit("1"), Hit("2")]) == ["1", "2"];
    assert [older, newer][1..] == [newer];
    assert FilterByIds([newer], ["1", "2"]) == [newer];
    assert FilterByIds(Joined(t), ["1", "2"]) == [older, newer];
    assert FilterByAuthor([newer], None) == [newer];
    assert FilterByAuthor([older, newer], None) == [older, newer];
    assert ByRecency([newer]) == [newer];
    assert Insert(older, [newer]) == [newer, older];
    assert ByRecency([older, newer]) == [newer, older];
  }

  /** With a healthy store, the list path returns the page of `limit`
      matching articles, newest first, that starts at the statement's
      offset whenever that offset is not negative (for pages up to 2^56 it
      is exactly `(page-1)*limit`, by PageOffsetExact). */
  lemma HealthyListPath(t: Tables, f0: FilterValue, search: Result<SearchResult>, offset: nat)
    requires f0.query == "" && PageOffset(NormalizePage(f0.page), NormalizeLimit(f0.limit)) == offset
    ensures ReadPath(t, f0, search, Healthy).result
      == Ok(ListRows(t, ArticleRepository.AuthorClause(f0.author), NormalizeLimit(f0.limit), offset))
  {
    var f := Normalize(f0);
    var rows := ListRows(t, ArticleRepository.AuthorClause(f.author), f.limit, offset);
    assert ListResult(t, ArticleRepository.AuthorClause(f.author), f.limit, offset) == Ok(rows);
    assert Scanned(rows, Healthy) == Ok(rows);
    assert ArticleRepository.ListOutcome(t, f, Healthy) == Ok(rows);
  }

  /** A page Atoi accepts whose offset wraps below zero: the store refuses
      the negative OFFSET and the request fails. */
  lemma HugePageFails(t: Tables, search: Result<SearchResult>)
    ensures ReadPath(t, FilterValue("", "", 92233720368547760, 100), search, Healthy).result
      == Err(Wrapped(GettingArticles, Db(NegativeOffset)))
  {
    assert PageOffset(92233720368547760, 100) < 0;
  }

  // ---- the coordinator ----

  /** articleService: the article repository, the author service and the
      search client, with a log of the calls made on them. The store's
      state lives in the database both repositories share. */
  class ArticleService {
    const repo: ArticleRepository.PostgresRepository
    const authorService: AuthorService.AuthorService
    const esClient: SearchIndex
    ghost var trace: seq<Call>

    constructor (repo: ArticleRepository.PostgresRepository, authorService: AuthorService.AuthorService, esClient: SearchIndex)
      ensures this.repo == repo && this.authorService == authorService && this.esClient == esClient
      ensures trace == []
    {
      this.repo := repo;
      this.authorService := authorService;
      this.esClient := esClient;
      trace := [];
    }

    /** The ids of a page of hits, appended one by one. */
    static method HitIds(hits: seq<Hit>) returns (ids: seq<string>)
      ensures ids == HitIdsOf(hits)
    {
      ids := [];
      for i := 0 to |hits|
        invariant |ids| == i
        invariant forall k :: 0 <= k < i ==> ids[k] == hits[k].id
      {
        ids := ids + [hits[i].id];
      }
    }

    method PostArticle(req: CreateArticleRequest, now: int, f: WriteFaults) returns (r: Result<Article>)
      requires authorService.repo.db == repo.db
      modifies this, authorService, repo.db, esClient
      ensures var w := WritePath(old(repo.db.tables), old(esClient.docs), req, now, f);
        && r == w.result
        && repo.db.tables == w.tables
        && esClient.docs == w.docs
        && trace == old(trace) + w.calls
      ensures authorService.calls == old(authorService.calls)
        + AuthorService.Resolve(old(repo.db.tables.authors), req.author, f.lookup, f.createAuthor).calls
    {
      trace := trace + [ResolveCall(req.author)];
      var authorObj := authorService.GetOrCreateAuthor(req.author, f.lookup, f.createAuthor);
      if authorObj.Err? {
        return Err(Wrapped(ResolvingAuthor, authorObj.error));
      }
      var article := Article("", req.title, req.body, authorObj.value.id, Author(authorObj.value.id, req.author), now);
      trace := trace + [CreateCall(article)];
      var created := repo.CreateArticle(article, f.insert);
      if created.Err? {
        return Err(Wrapped(PostingArticle, created.error));
      }
      var doc := SearchDocument(created.value.id, created.value.title, created.value.body, created.value.author.name, created.value.createdAt);
      trace := trace + [IndexCall(ArticleIndexName, created.value.id, doc)];
      var indexErr := esClient.IndexDocument(ArticleIndexName, created.value.id, doc, f.index);
      return created;
    }

    /** The pagination defaults, applied to the caller's filter in place. */
    static method NormalizeFilter(filter: ArticleFilter)
      modifies filter
      ensures filter.Value() == Normalize(old(filter.Value()))
    {
      if filter.page <= 0 {
        filter.page := 1;
      }
      if filter.limit <= 0 {
        filter.limit := 10;
      }
      if filter.limit > 100 {
        filter.limit := 100;
      }
    }

    method GetArticles(filter: ArticleFilter, search: Result<SearchResult>, fault: DbFault) returns (r: Result<seq<Article>>)
      modifies this, filter
      ensures filter.Value() == Normalize(old(filter.Value()))
      ensures var p := ReadPath(repo.db.tables, old(filter.Value()), search, fault);
        r == p.result && trace == old(trace) + p.calls
    {
      NormalizeFilter(filter);
      assert ReadPath(repo.db.tables, filter.Value(), search, fault) == ReadPath(repo.db.tables, old(filter.Value()), search, fault);

      if filter.query != "" {
        r := SearchAndFetch(filter, search, fault);
      } else {
        trace := trace + [ListCall(filter.Value())];
        var listed := repo.GetArticles(filter, fault);
        if listed.Err? {
          return Err(Wrapped(GettingArticles, listed.error));
        }
        r := Ok(listed.value);
      }
    }

    /** The query branch of GetArticles, on a filter already normalised. */
    method SearchAndFetch(filter: ArticleFilter, search: Result<SearchResult>, fault: DbFault) returns (r: Result<seq<Article>>)
      requires filter.query != "" && filter.Value() == Normalize(filter.Value())
      modifies this
      ensures var p := ReadPath(repo.db.tables, filter.Value(), search, fault);
        r == p.result && trace == old(trace) + p.calls
    {
      var from := PageOffset(filter.page, filter.limit);
      trace := trace + [SearchCall(ArticleIndexName, filter.query, SearchFields, from, filter.limit, false, SortField)];
      if search.Err? {
        return Err(Wrapped(SearchingArticles, search.error));
      }
      var articles: seq<Article> := [];
      if search.value.totalHits > 0 {
        var articleIds := HitIds(search.value.hits);
        trace := trace + [ByIdCall(filter.Value(), articleIds)];
        var fetched := repo.GetArticlesByID(filter, articleIds, fault);
        if fetched.Err? {
          return Err(Wrapped(RetrievingDetails, fetched.error));
        }
        articles := fetched.value;
      }
      return Ok(articles);
    }
  }
}
