# kumparan article service — a Dafny model

This project models the core of the kumparan news-article API in Dafny.
The core is written in Go. It has four parts:

- **The article coordinator** (`internal/article/service.go`). `PostArticle`
  resolves the author, stores the article, then indexes it for search; a
  failed indexing is ignored. `GetArticles` first normalises the caller's
  filter in place. It then either searches the engine and fetches the hits
  from the store, or lists straight from the store.
- **Author get-or-create** (`internal/author/service.go`). A lookup by name
  that creates the author when the store reports "no rows". Every other
  failure becomes the single sentinel `ErrInternalDBError`.
- **The PostgreSQL article repository** (`internal/article/repository.go`).
  It builds each statement's argument list and `$n` placeholder numbering,
  and inserts a row. The model says what the two SELECTs return, and reads
  the row stream all-or-nothing.
- **The HTTP handlers** (`internal/api/handlers.go`): `parseIntOrDefault`,
  the required-field check, building the filter, and the mapping of
  outcomes to 400/201/500/200.

The database is a `Database` object holding two tables as sequences of
rows (`Store.Tables`). Both repositories share it. The search engine is a
`SearchIndex` object holding a map of documents. The two service classes
and the handler keep a ghost log of the calls they make on their
collaborators. The log is how the model states "never called" and "called
once with these arguments".

Every failure a collaborator can report is a parameter of the operation:

- an `Option<string>` fault for an insert, a lookup or an index write;
- a `DbFault` for a SELECT (the statement, one row's scan, or the stream);
- a `Result<SearchResult>` for the search engine's answer.

`time.Now()` is a parameter `now`. Timestamps are integers.

Each stateful operation is a method. It is proved equal to a specification
function:

- `Resolve` for author get-or-create;
- `InsertOutcome`, `ListOutcome` and `ByIdOutcome` for the repository;
- `WritePath` and `ReadPath` for the coordinator.

The lemmas are stated about those functions.

Go's `int` is 64 bits wide. The page offset `(page-1)*limit` wraps the way
Go computes it. With a large enough page, the wrapped offset is a small
positive number (`Model.PageOffsetWraps`) or a negative one, and PostgreSQL
refuses a negative OFFSET (`ArticleService.HugePageFails`).

One might expect the query path to return articles in the search engine's
hit order. It does not: the hits are fetched by id with
`ORDER BY created_at DESC` (`internal/article/repository.go:101`), so the
answer is newest first and the hit order is lost
(`ArticleService.HitOrderIsNotKept`, `ArticleService.QueryPathResult`).

## Model

| member | source | states |
|---|---|---|
| Errors.Staged | internal/article/service.go:117-129 | wrapping a failure with a stage keeps it a failure whose chain still holds the cause (`errors.Is`), and passes a success through unchanged |
| Errors.WrappedMessage | internal/article/service.go:39 | a wrapped error's message contains both the stage text and the cause's message |
| Numbers.WrapInt64 | internal/article/repository.go:61 | the result is an int64 congruent to the input mod 2^64, and equal to it when the input is already in range |
| Numbers.AtoiOfRender | internal/api/handlers.go:110-115 | every int64 written in decimal (with '-' when negative) parses back to itself |
| Numbers.AtoiRejectsNonDigits | internal/api/handlers.go:110-114 | a non-digit after the optional sign makes Atoi fail |
| Numbers.AtoiRejectsOverflow | internal/api/handlers.go:110-114 | digit strings whose value exceeds the int64 maximum are rejected, not clamped |
| Model.PageOffset | internal/article/repository.go:61 | the offset Go computes is always an int64 |
| Model.PageOffsetExact | internal/article/service.go:101 | for a page up to 2^56 and limit 1..100 the offset is exactly (page-1)*limit, and consecutive pages are adjacent windows |
| Model.PageOffsetWraps | internal/article/repository.go:61 | page 184467440737095518 with limit 100 is an int64 that yields offset 84 |
| Store.NextIdIsFresh | internal/article/repository.go:28-29 | in a well-formed store, the next id handed out belongs to no existing row |
| Store.FindAuthorById | internal/article/repository.go:44-45 | the join finds an author with that id when one exists, and none otherwise |
| Store.JoinRow | internal/article/repository.go:44-45 | an article row joins iff an author with its author_id exists; the joined article keeps the row's id, title, body and created_at, carries that stored author, and leaves AuthorID blank because the SELECT does not scan it (repository.go:71) |
| Store.JoinRows | internal/article/repository.go:44-45 | the inner JOIN yields exactly the joined forms of the article rows whose author exists, never more rows than it read |
| Store.FilterByAuthor | internal/article/repository.go:50-54 | a row is kept iff it is in the input and (when an author is given) its author's name equals it |
| Store.FilterByIds | internal/article/repository.go:96 | a row is kept iff it is in the input and its id is in the id list |
| Store.ByRecencySorts | internal/article/repository.go:57 | the ordering is newest first and is a permutation of its input |
| Store.Window | internal/article/repository.go:60-61 | LIMIT/OFFSET returns min(limit, rows remaining after the offset) rows, the k-th being the input's (offset+k)-th |
| Store.ListRowsMeaning | internal/article/repository.go:43-61 | the list statement returns `limit` rows, or every matching row left after the offset when fewer remain, newest first, each a joined row by the requested author; the first page holds them all when they fit |
| Store.ByIdRowsMeaning | internal/article/repository.go:94-101 | the by-id statement returns exactly the joined rows whose id is listed and whose author matches, newest first |
| Store.ByIdRowsIgnoreIdOrder | internal/article/repository.go:101 | reordering or repeating the ids does not change the result |
| Sql.ListBindingIsFaithful | internal/article/repository.go:47-61 | with placeholders numbered from $1 in textual order, the bound statement means author filter, LIMIT and OFFSET with exactly the given values |
| Sql.ByIdBindingIsFaithful | internal/article/repository.go:91-100 | the by-id statement bound to `[ids]` plus the author means exactly the intended id and author filter |
| Sql.MisnumberedListFails | internal/article/repository.go:60 | numbering LIMIT as $1 while an author argument comes first would bind the author's name to LIMIT, which PostgreSQL rejects as bigint input |
| Sql.Scanned | internal/article/repository.go:69-79 | a read succeeds iff no row's scan and no stream check fails, and then yields every row; never a prefix |
| ArticleRepository.BuildListQuery | internal/article/repository.go:44-61 | the arguments are `[author?] ++ [limit, (page-1)*limit]`, with the author present iff it is non-empty, and the placeholders are numbered $1, $2, ... in the same order |
| ArticleRepository.BuildByIdQuery | internal/article/repository.go:91-100 | the arguments are `[ids]` plus the author iff the filter is non-nil with a non-empty author, numbered $1, $2 |
| ArticleRepository.ScanRows | internal/article/repository.go:69-79 | the row loop returns the outcome `Scanned` specifies: all rows or the first error |
| ArticleRepository.InsertionMeaning | internal/article/repository.go:27-35 | an insert either fails and leaves the store alone, or appends one row and returns the same record with only a fresh non-empty id added; it succeeds iff the store accepts it and the author exists, and the store stays well formed |
| ArticleRepository.PostgresRepository.CreateArticle | internal/article/repository.go:27-35 | the result and the new tables are those of `InsertOutcome` |
| ArticleRepository.PostgresRepository.GetArticles | internal/article/repository.go:39-82 | builds, binds and runs the list statement and scans it, returning `ListOutcome` |
| ArticleRepository.PostgresRepository.GetArticlesByID | internal/article/repository.go:85-122 | an empty id list gives an empty result without a statement; otherwise the by-id statement's rows, all-or-nothing |
| AuthorService.FindByName | internal/author/repository.go:32-40 | a found author is in the table with that name; none is found iff no author has that name |
| AuthorService.ResolveMeaning | internal/author/service.go:28-50 | every failure is `ErrInternalDBError` and changes nothing; every success has the requested name and is in the table; the table grows by at most one appended row; the first call is always the lookup |
| AuthorService.ResolveExisting | internal/author/service.go:29-49 | a lookup hit returns the stored author with one lookup and no create |
| AuthorService.ResolveNew | internal/author/service.go:31-42 | not-found leads to exactly one create with the requested name, whose result is returned, or `ErrInternalDBError` if it fails |
| AuthorService.ResolveLookupFails | internal/author/service.go:45-46 | a lookup failure other than not-found returns `ErrInternalDBError` with no create attempted |
| AuthorService.ResolveAgainReuses | internal/author/service.go:27-49 | after a successful call, a second call with the same name creates nothing and returns the same author, id included |
| AuthorService.ResolveKeepsNamesUnique | internal/author/service.go:28-43 | calls made one after another never store two authors with the same name |
| AuthorService.ResolveKeepsWellFormed | internal/author/service.go:36 | resolving keeps the store's ids and foreign keys intact |
| AuthorService.PostgresRepository.GetAuthorByName | internal/author/repository.go:32-40 | returns `LookupOutcome`: a database error, the first author with that name, or `sql.ErrNoRows` |
| AuthorService.PostgresRepository.CreateAuthor | internal/author/repository.go:22-29 | appends the author with a new id and returns it with that id, or fails and changes nothing |
| AuthorService.AuthorService.GetOrCreateAuthor | internal/author/service.go:28-50 | result, new author table and repository calls are those of `Resolve` |
| Search.HitIdsOf | internal/article/service.go:112-115 | one id per hit, the k-th being the k-th hit's id |
| Search.SearchIndex.IndexDocument | pkg/search/service.go:38-53 | success upserts the document under (index, id); failure reports "failed to index document" and changes nothing |
| ArticleService.NormalizePage | internal/article/service.go:82-84 | the page becomes at least 1: a page <= 0 becomes exactly 1, any other is kept |
| ArticleService.NormalizeLimit | internal/article/service.go:85-90 | the limit lands in 1..100: <= 0 becomes 10, > 100 becomes 100, any other is kept |
| ArticleService.NormalizeMeaning | internal/article/service.go:82-90 | normalising keeps query and author, lands page and limit in range, and is idempotent |
| ArticleService.ResolutionFailureStops | internal/article/service.go:36-40 | a failed resolution returns an error wrapping `ErrInternalDBError` with "failed to resolve author", stores and indexes nothing, and calls neither CreateArticle nor IndexDocument |
| ArticleService.DraftCarriesRequest | internal/article/service.go:42-57 | once the author resolves, CreateArticle is called with a record carrying the request's title, body and author name, the resolved author's id, and the current time; an insert failure says "failed to post article" and indexes nothing; the article table is then unchanged while an author created on the way stays |
| ArticleService.IndexingFailureIsIgnored | internal/article/service.go:69-77 | the result, the store and the calls are the same whether indexing fails or not |
| ArticleService.SuccessIndexesTheArticle | internal/article/service.go:62-77 | a successful post makes exactly one IndexDocument call, keyed by the new id and carrying the article's fields; when indexing succeeds the index is the old one with that document upserted |
| ArticleService.CreatedArticleIsStored | internal/article/service.go:34-77 | on a well-formed store a successful post echoes the request, its author snapshot is a stored author, the store stays well formed, and fetching the new id returns the article |
| ArticleService.PostedArticleListsFirst | internal/article/service.go:34-78 | on a well-formed store whose articles all predate `now`, after a successful post, listing by the same author with no query puts the new article first on the first page of any limit |
| Store.NewestHeadsFirstPage | internal/article/repository.go:43-61 | a joined row by the requested author that is strictly newer than every other joined row is the first row of the first page |
| ArticleService.QueryGoesToSearch | internal/article/service.go:95-105 | a non-empty query first searches "articles" over title and body, from (page-1)*limit, size limit, descending on "published_at", and never lists from the store |
| ArticleService.EmptyQueryListsFromStore | internal/article/service.go:124-131 | an empty query makes only the store list call, with the normalised filter, and returns its result or its error as "failed to get articles" |
| ArticleService.SearchFailureHasNoFallback | internal/article/service.go:106-109 | a failed search returns "failed to search articles" wrapping the engine's error, with no store call |
| ArticleService.HitsAreFetchedInOrder | internal/article/service.go:111-122 | zero total hits returns an empty list with no fetch; otherwise the store gets the hit ids in hit order, and its result or its error (as "failed to retrieve articles details") is returned |
| ArticleService.QueryPathResult | internal/article/service.go:117 | with a healthy store, the query path returns exactly the stored hits that match the author filter, newest first |
| ArticleService.HitOrderIsNotKept | internal/article/repository.go:101 | two hits ranked oldest first come back newest first |
| ArticleService.HealthyListPath | internal/article/service.go:124-131 | whatever the search engine would answer, with a healthy store and a non-negative offset the list path returns the window of `limit` matching rows, newest first, starting at that offset |
| ArticleService.HugePageFails | internal/article/repository.go:61 | page 92233720368547760 with limit 100 wraps to a negative OFFSET, which the store refuses |
| ArticleService.ArticleService.HitIds | internal/article/service.go:112-115 | the append loop yields `HitIdsOf` of the hits |
| ArticleService.ArticleService.PostArticle | internal/article/service.go:34-78 | result, store, index and calls are those of `WritePath`, and the author service's repository calls are those of `Resolve` |
| ArticleService.ArticleService.GetArticles | internal/article/service.go:80-134 | the caller's filter is left normalised; result and calls are those of `ReadPath` |
| ArticleService.ArticleService.NormalizeFilter | internal/article/service.go:82-90 | the caller's filter is rewritten in place to its normalised value |
| ArticleService.ArticleService.SearchAndFetch | internal/article/service.go:95-123 | on a normalised filter with a query, result and calls are those of `ReadPath` |
| Api.ParseIntOrDefault | internal/api/handlers.go:106-116 | the result is the default or an int64 |
| Api.ParseIntOrDefaultReadsDecimals | internal/api/handlers.go:110-115 | every int64 in decimal is read as itself, whatever the default |
| Api.ParseIntOrDefaultFallsBack | internal/api/handlers.go:107-114 | empty text, a bare sign, a non-digit anywhere but a leading sign, or a value past the int64 range (unsigned, with '+' or with '-') gives the default |
| Api.RequestFilterDefaults | internal/api/handlers.go:85-90 | "abc"/"def" and empty parameters give page 1 and limit 10; a limit of 500 is passed on unclamped |
| Api.Handler.PostArticle | internal/api/handlers.go:51-68 | an undecodable body or a missing title, body or author gives 400 without calling the service and without touching store, index or the author service's calls; otherwise the store, index and call logs are those of `WritePath` and `Resolve`, with 201 and the created article or 500 on failure |
| Api.Handler.GetArticles | internal/api/handlers.go:84-98 | the service receives query and author verbatim and the parsed page and limit; its result gives 200, its error 500 |

## Left out

- ArticleRepository.PostgresRepository.CreateArticle: returns the stamped record as a new value. It does not update the caller's record in place, so aliasing of that record is not modelled.
- ArticleRepository.PostgresRepository.CreateArticle: the returned `created_at` is the timestamp that was inserted. Rounding to the database's precision is not modelled.
- Store.NthId: ids are the decimal row numbers 1, 2, 3, … in insertion order. The table schema (migrations) is not part of this model. A failed insert consumes no id here, whereas a database sequence would.
- Store.ByRecency: rows with equal `created_at` come out in a fixed order. SQL leaves their order unspecified.
- AuthorService.FindByName: with several authors of the same name, the model returns the first in insertion order. `QueryRow` takes whichever row the database returns first.
- The race between concurrent get-or-create calls for the same name is left out, as is any other concurrency. The model only covers calls made one after another.
- The search engine's ranking, the "published_at" sort and `SearchDocuments` itself are left out, because they run inside the engine. Its answer is a parameter; only the request it receives is recorded. A response without a hits section (which would make the Go code panic) is not modelled.
- Search.SearchIndex: `Close` and index creation at startup (`pkg/search/elastic.go`) are left out.
- Logging (`logrus`), `context` cancellation, and JSON encoding and decoding by echo are left out. `RegisterRoutes` and the health check are left out too. A request body reaches `Api.Handler.PostArticle` already decoded, or as `None` when decoding failed.
- `cmd/main.go`, `config/config.go` and `pkg/database/postgres.go` are left out. They cover process startup, configuration loading and connection setup.
- Sql.IntParam: text bound to a bigint placeholder is read with `Atoi`. PostgreSQL's own bigint input also accepts surrounding blanks, which is not modelled; no code path binds text there.
- The SQL text itself is left out. Each statement is modelled by its placeholder numbering and by the meaning of its clauses.
