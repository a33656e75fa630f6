/** The records of the article domain (internal/article/model.go and the
    author package's Author). Timestamps are opaque integers. */
module Model {
  import opened Numbers

  /** author.Author: a store-assigned id and a name. */
  datatype Author = Author(id: string, name: string)

  /** article.Article. `author` is the denormalised {id, name} snapshot. */
  datatype Article = Article(
    id: string,
    title: string,
    body: string,
    authorId: string,
    author: Author,
    createdAt: int)

  datatype CreateArticleRequest = CreateArticleRequest(title: string, body: string, author: string)

  /** The value of an ArticleFilter at one moment. */
  datatype FilterValue = FilterValue(query: string, author: string, page: int, limit: int)

  /** article.ArticleFilter. It is a class because the service rewrites the
      caller's Page and Limit in place. */
  class ArticleFilter {
    var query: string
    var author: string
    var page: int
    var limit: int

    constructor (query: string, author: string, page: int, limit: int)
      ensures Value() == FilterValue(query, author, page, limit)
    {
      this.query := query;
      this.author := author;
      this.page := page;
      this.limit := limit;
    }

    function Value(): FilterValue
      reads this
    {
      FilterValue(query, author, page, limit)
    }
  }

  /** `(filter.Page-1)*filter.Limit` evaluated in Go's 64-bit `int`: both the
      subtraction and the product wrap around. */
  function PageOffset(page: int, limit: int): (offset: int)
    ensures IsInt64(offset)
  {
    WrapInt64(WrapInt64(page - 1) * limit)
  }

  const MaxExactPage: int := 0x100_0000_0000_0000  // 2^56

  /** For any page up to 2^56 and a limit the service allows, the offset is
      the exact number of rows on the preceding pages, and consecutive pages
      are adjacent windows. */
  lemma PageOffsetExact(page: int, limit: int)
    requires 1 <= page <= MaxExactPage && 1 <= limit <= 100
    ensures PageOffset(page, limit) == (page - 1) * limit
    ensures page < MaxExactPage ==> PageOffset(page + 1, limit) == PageOffset(page, limit) + limit
  {
    MulBound(page - 1, limit);
    MulBound(page, limit);
    assert page * limit == (page - 1) * limit + limit;
  }

  lemma MulBound(a: int, b: int)
    requires 0 <= a <= MaxExactPage && 0 <= b <= 100
    ensures 0 <= a * b <= MaxExactPage * 100
  {
    assert a * b <= MaxExactPage * b;
  }

  /** A page that Atoi accepts but whose offset wraps: page
      184467440737095518 with limit 100 asks for offset 84, so the request
      is served rows 84 to 183 instead of an empty page. */
  lemma PageOffsetWraps()
    ensures IsInt64(184467440737095518)
    ensures PageOffset(184467440737095518, 100) == 84
  {
  }
}
