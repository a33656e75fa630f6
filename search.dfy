/** The search engine as the article service sees it (pkg/search/service.go):
    an index of documents that can be upserted by id, and a query oracle
    that answers with a total hit count and an ordered page of hits, or
    fails. Relevance ranking and sorting happen inside the engine and are
    not modelled. */
module Search {
  import opened Errors

  const ArticleIndexName := "articles"

  /** The document PostArticle indexes for an article. */
  datatype SearchDocument = SearchDocument(id: string, title: string, body: string, author: string, createdAt: int)

  /** One hit of a search response: the indexed document's id. */
  datatype Hit = Hit(id: string)

  /** `Hits.TotalHits.Value` and the returned page `Hits.Hits`, in the
      engine's order. The count covers every match, the page only the
      requested window, so the two are independent. */
  datatype SearchResult = SearchResult(totalHits: int, hits: seq<Hit>)

  /** The ids of a page of hits, in hit order. */
  function HitIdsOf(hits: seq<Hit>): (ids: seq<string>)
    ensures |ids| == |hits|
    ensures forall k :: 0 <= k < |hits| ==> ids[k] == hits[k].id
  {
    if hits == [] then [] else [hits[0].id] + HitIdsOf(hits[1..])
  }

  /** The documents held by the engine, keyed by (index name, document id). */
  class SearchIndex {
    var docs: map<(string, string), SearchDocument>

    constructor ()
      ensures docs == map[]
    {
      docs := map[];
    }

    /** IndexDocument: add or replace the document with this id; a failure
        changes nothing and is reported as "failed to index document". */
    method IndexDocument(index: string, id: string, doc: SearchDocument, fault: Option<string>) returns (err: Option<Error>)
      modifies this
      ensures fault.None? ==> err.None? && docs == old(docs)[(index, id) := doc]
      ensures fault.Some? ==> err == Some(SearchEngine("failed to index document: " + fault.value)) && docs == old(docs)
    {
      if fault.Some? {
        return Some(SearchEngine("failed to index document: " + fault.value));
      }
      docs := docs[(index, id) := doc];
      return None;
    }
  }
}
