/** The HTTP handlers of the article API (internal/api/handlers.go): the
    decisions they take before calling the article service, and how the
    service's outcome becomes a status code. Routing, JSON encoding and the
    framework's context are outside the model; a request body arrives
    already decoded, or as `None` when decoding failed. */
module Api {
  import opened Errors
  import opened Numbers
  import opened Model
  import opened Sql
  import opened Search
  import opened ArticleService
  import AuthorService

  const StatusOK := 200
  const StatusCreated := 201
  const StatusBadRequest := 400
  const StatusInternalServerError := 500

  const MalformedPayload := "Invalid request payload or malformed JSON"
  const MissingFields := "Missing required fields: title, body, and author are mandatory"
  const CreateFailed := "Failed to create article due to internal error"
  const RetrieveFailed := "Failed to retrieve articles due to internal error"

  datatype Payload = CreatedArticle(article: Article) | ArticleList(articles: seq<Article>) | ErrorMessage(message: string)

  datatype Response = Response(status: int, payload: Payload)

  // ---- pure decisions ----

  /** parseIntOrDefault: the value `strconv.Atoi` reads from `s`, or the
      default when `s` is empty or not a decimal int64. */
  function ParseIntOrDefault(s: string, defaultValue: int): (v: int)
    ensures v == defaultValue || IsInt64(v)
  {
    if s == "" then defaultValue
    else
      match Atoi(s)
      case None => defaultValue
      case Some(val) => val
  }

  /** Every int64 written in decimal is read back as itself, whatever the
      default. */
  lemma ParseIntOrDefaultReadsDecimals(n: int, defaultValue: int)
    requires IsInt64(n)
    ensures ParseIntOrDefault(Decimal(n), defaultValue) == n
  {
    AtoiOfRender(n);
  }

  /** Empty text, a bare sign, a stray non-digit (anywhere but a leading
      sign), or a number past the int64 range, signed or not, all give the
      default. */
  lemma ParseIntOrDefaultFallsBack(s: string, defaultValue: int)
    ensures s == "" ==> ParseIntOrDefault(s, defaultValue) == defaultValue
    ensures s == "+" || s == "-" ==> ParseIntOrDefault(s, defaultValue) == defaultValue
    ensures (exists i :: 0 <= i < |s| && !IsDigit(s[i]) && (i > 0 || (s[0] != '+' && s[0] != '-'))) ==>
      ParseIntOrDefault(s, defaultValue) == defaultValue
    ensures |s| > 0 && AllDigits(s) && Value(s) > MaxInt64 ==> ParseIntOrDefault(s, defaultValue) == defaultValue
    ensures |s| > 1 && s[0] == '+' && AllDigits(s[1..]) && Value(s[1..]) > MaxInt64 ==>
      ParseIntOrDefault(s, defaultValue) == defaultValue
    ensures |s| > 1 && s[0] == '-' && AllDigits(s[1..]) && Value(s[1..]) > -MinInt64 ==>
      ParseIntOrDefault(s, defaultValue) == defaultValue
  {
    if exists i :: 0 <= i < |s| && !IsDigit(s[i]) && (i > 0 || (s[0] != '+' && s[0] != '-')) {
      var i :| 0 <= i < |s| && !IsDigit(s[i]) && (i > 0 || (s[0] != '+' && s[0] != '-'));
      AtoiRejectsNonDigits(s, i);
    }
    if |s| > 0 && AllDigits(s) && Value(s) > MaxInt64 {
      AtoiRejectsOverflow(s);
    }
  }

  /** The required-field check of PostArticle. */
  predicate MissingRequired(req: CreateArticleRequest)
  {
    req.title == "" || req.body == "" || req.author == ""
  }

  /** The filter GetArticles builds from the query string: query and author
      verbatim, page and limit parsed with defaults 1 and 10 and no
      clamping (the service normalises them). */
  function RequestFilter(query: string, author: string, pageParam: string, limitParam: string): FilterValue
  {
    FilterValue(query, author, ParseIntOrDefault(pageParam, 1), ParseIntOrDefault(limitParam, 10))
  }

  /** Unparsable page and limit fall back to 1 and 10; a parsable limit
      above 100 is passed on as it is. */
  lemma RequestFilterDefaults(query: string, author: string)
    ensures RequestFilter(query, author, "abc", "def") == FilterValue(query, author, 1, 10)
    ensures RequestFilter(query, author, "", "") == FilterValue(query, author, 1, 10)
    ensures RequestFilter(query, author, "2", "500") == FilterValue(query, author, 2, 500)
  {
    ParseIntOrDefaultFallsBack("abc", 1);
    ParseIntOrDefaultFallsBack("def", 10);
    ParseIntOrDefaultReadsDecimals(2, 1);
    assert Decimal(2) == "2";
    ParseIntOrDefaultReadsDecimals(500, 10);
    assert Render(5) == "5" && Render(50) == "50";
    assert Decimal(500) == "500";
  }

  // ---- the handlers ----

  /** A call the handler makes on the article service. */
  datatype ServiceCall = PostCall(req: CreateArticleRequest) | ListArticlesCall(filter: FilterValue)

  class Handler {
    const articleService: ArticleService
    /** The service calls this handler has made, oldest first. */
    ghost var calls: seq<ServiceCall>

    constructor (articleService: ArticleService)
      ensures this.articleService == articleService && calls == []
    {
      this.articleService := articleService;
      calls := [];
    }

    /** POST /api/v1/articles: 400 for an undecodable body or a missing
        field, without calling the service; otherwise 201 with the created
        article, or 500 when the service fails. */
    method PostArticle(body: Option<CreateArticleRequest>, now: int, faults: WriteFaults) returns (resp: Response)
      requires articleService.authorService.repo.db == articleService.repo.db
      modifies this, articleService, articleService.authorService, articleService.repo.db, articleService.esClient
      ensures body.None? ==>
        resp == Response(StatusBadRequest, ErrorMessage(MalformedPayload))
      ensures body.Some? && MissingRequired(body.value) ==>
        resp == Response(StatusBadRequest, ErrorMessage(MissingFields))
      ensures body.None? || MissingRequired(body.value) ==>
        && calls == old(calls)
        && articleService.trace == old(articleService.trace)
        && articleService.authorService.calls == old(articleService.authorService.calls)
        && articleService.repo.db.tables == old(articleService.repo.db.tables)
        && articleService.esClient.docs == old(articleService.esClient.docs)
      ensures body.Some? && !MissingRequired(body.value) ==>
        var w := WritePath(old(articleService.repo.db.tables), old(articleService.esClient.docs), body.value, now, faults);
        && calls == old(calls) + [PostCall(body.value)]
        && articleService.trace == old(articleService.trace) + w.calls
        && articleService.authorService.calls == old(articleService.authorService.calls)
             + AuthorService.Resolve(old(articleService.repo.db.tables.authors), body.value.author, faults.lookup, faults.createAuthor).calls
        && articleService.repo.db.tables == w.tables
        && articleService.esClient.docs == w.docs
        && (w.result.Ok? ==> resp == Response(StatusCreated, CreatedArticle(w.result.value)))
        && (w.result.Err? ==> resp == Response(StatusInternalServerError, ErrorMessage(CreateFailed)))
    {
      if body.None? {
        return Response(StatusBadRequest, ErrorMessage(MalformedPayload));
      }
      var req := body.value;
      if req.title == "" || req.body == "" || req.author == "" {
        return Response(StatusBadRequest, ErrorMessage(MissingFields));
      }
      calls := calls + [PostCall(req)];
      var created := articleService.PostArticle(req, now, faults);
      if created.Err? {
        return Response(StatusInternalServerError, ErrorMessage(CreateFailed));
      }
      return Response(StatusCreated, CreatedArticle(created.value));
    }

    /** GET /api/v1/articles: hands the filter built from the query string
        to the service; 200 with its articles, or 500 when it fails. */
    method GetArticles(query: string, author: string, pageParam: string, limitParam: string,
                       search: Result<SearchResult>, fault: DbFault) returns (resp: Response)
      modifies this, articleService
      ensures var p := ReadPath(articleService.repo.db.tables, RequestFilter(query, author, pageParam, limitParam), search, fault);
        && calls == old(calls) + [ListArticlesCall(RequestFilter(query, author, pageParam, limitParam))]
        && articleService.trace == old(articleService.trace) + p.calls
        && (p.result.Ok? ==> resp == Response(StatusOK, ArticleList(p.result.value)))
        && (p.result.Err? ==> resp == Response(StatusInternalServerError, ErrorMessage(RetrieveFailed)))
    {
      var filter := new ArticleFilter(query, author, ParseIntOrDefault(pageParam, 1), ParseIntOrDefault(limitParam, 10));
      calls := calls + [ListArticlesCall(filter.Value())];
      var articles := articleService.GetArticles(filter, search, fault);
      if articles.Err? {
        return Response(StatusInternalServerError, ErrorMessage(RetrieveFailed));
      }
      return Response(StatusOK, ArticleList(articles.value));
    }
  }
}
