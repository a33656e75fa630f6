/** Author get-or-create (internal/author/service.go) over the `authors`
    table, with the author repository's contract: lookup by exact name with
    a distinct "no rows" signal, and insert-and-return-id. */
module AuthorService {
  import opened Errors
  import opened Model
  import opened Store

  /** `SELECT id, name FROM authors WHERE name = $1` read with QueryRow:
      the first matching row. */
  function FindByName(authors: seq<Author>, name: string): (r: Option<Author>)
    ensures r.Some? ==> r.value in authors && r.value.name == name
    ensures r.None? <==> forall a :: a in authors ==> a.name != name
  {
    if authors == [] then None
    else if authors[0].name == name then Some(authors[0])
    else FindByName(authors[1..], name)
  }

  /** GetAuthorByName: a database failure, the author, or sql.ErrNoRows. */
  function LookupOutcome(authors: seq<Author>, name: string, fault: Option<string>): Result<Author>
  {
    if fault.Some? then Err(Db(fault.value))
    else
      match FindByName(authors, name)
      case Some(a) => Ok(a)
      case None => Err(NoRows)
  }

  datatype Creation = Creation(result: Result<Author>, authors: seq<Author>)

  /** CreateAuthor: `INSERT INTO authors (name) … RETURNING id`, the new id
      written back onto the record. No uniqueness constraint on the name is
      assumed. */
  function CreateOutcome(authors: seq<Author>, a: Author, fault: Option<string>): Creation
  {
    if fault.Some? then Creation(Err(Db(fault.value)), authors)
    else
      var created := a.(id := NthId(|authors|));
      Creation(Ok(created), authors + [created])
  }

  /** A call the author service makes on its repository. */
  datatype RepoCall = LookupCall(name: string) | CreateCall(author: Author)

  /** The effect of one GetOrCreateAuthor call: its result, the authors
      table afterwards, and the repository calls made. */
  datatype Resolution = Resolution(result: Result<Author>, authors: seq<Author>, calls: seq<RepoCall>)

  /** GetOrCreateAuthor as a function of the table and the two repository
      outcomes. */
  function Resolve(authors: seq<Author>, name: string, lookupFault: Option<string>, createFault: Option<string>): Resolution
  {
    match LookupOutcome(authors, name, lookupFault)
    case Ok(a) => Resolution(Ok(a), authors, [LookupCall(name)])
    case Err(e) =>
      if Is(e, NoRows) then
        var c := CreateOutcome(authors, Author("", name), createFault);
        var calls := [LookupCall(name), CreateCall(Author("", name))];
        match c.result
        case Err(_) => Resolution(Err(InternalDb), authors, calls)
        case Ok(created) => Resolution(Ok(created), c.authors, calls)
      else Resolution(Err(InternalDb), authors, [LookupCall(name)])
  }

  /** Whatever the outcomes: every failure is the single sentinel
      ErrInternalDBError and leaves the table alone; every success is an
      author with the requested name that is in the table afterwards; the
      table only ever grows by one appended row. */
  lemma ResolveMeaning(authors: seq<Author>, name: string, lookupFault: Option<string>, createFault: Option<string>)
    ensures var res := Resolve(authors, name, lookupFault, createFault);
      && (res.result.Err? ==> res.result.error == InternalDb && res.authors == authors)
      && (res.result.Ok? ==> res.result.value.name == name && res.result.value in res.authors)
      && (res.authors == authors || exists a :: res.authors == authors + [a])
      && res.calls[0] == LookupCall(name)
  {
  }

  /** Lookup hit: the stored author comes back unchanged and CreateAuthor is
      never called. */
  lemma ResolveExisting(authors: seq<Author>, name: string, createFault: Option<string>, a: Author)
    requires a in authors && a.name == name
    ensures Resolve(authors, name, None, createFault) == Resolution(Ok(FindByName(authors, name).value), authors, [LookupCall(name)])
  {
  }

  /** Lookup reports not-found: exactly one CreateAuthor call, with the
      requested name; its success is returned, its failure becomes the
      sentinel. */
  lemma ResolveNew(authors: seq<Author>, name: string, createFault: Option<string>)
    requires forall a :: a in authors ==> a.name != name
    ensures var res := Resolve(authors, name, None, createFault);
      && res.calls == [LookupCall(name), CreateCall(Author("", name))]
      && (createFault.None? ==>
            res.result == Ok(Author(NthId(|authors|), name)) && res.authors == authors + [Author(NthId(|authors|), name)])
      && (createFault.Some? ==> res.result == Err(InternalDb) && res.authors == authors)
  {
  }

  /** A lookup failure other than not-found is reported as the sentinel
      without attempting a create. */
  lemma ResolveLookupFails(authors: seq<Author>, name: string, detail: string, createFault: Option<string>)
    ensures Resolve(authors, name, Some(detail), createFault) == Resolution(Err(InternalDb), authors, [LookupCall(name)])
  {
  }

  lemma {:induction false} FindByNameAfterAppend(authors: seq<Author>, x: Author)
    requires forall a :: a in authors ==> a.name != x.name
    ensures FindByName(authors + [x], x.name) == Some(x)
  {
    if authors != [] {
      assert (authors + [x])[1..] == authors[1..] + [x];
      FindByNameAfterAppend(authors[1..], x);
    }
  }

  /** Calls in sequence against a table whose lookups see earlier creates:
      once a name has resolved, resolving it again creates nothing and
      returns the same author, with the same id. */
  lemma ResolveAgainReuses(authors: seq<Author>, name: string, lf: Option<string>, cf: Option<string>, cf2: Option<string>)
    requires Resolve(authors, name, lf, cf).result.Ok?
    ensures var first := Resolve(authors, name, lf, cf);
      Resolve(first.authors, name, None, cf2) == Resolution(first.result, first.authors, [LookupCall(name)])
  {
    var first := Resolve(authors, name, lf, cf);
    if FindByName(authors, name).None? {
      FindByNameAfterAppend(authors, Author(NthId(|authors|), name));
    }
  }

  /** No two authors share a name. */
  ghost predicate NamesUnique(authors: seq<Author>)
  {
    forall i, j :: 0 <= i < j < |authors| ==> authors[i].name != authors[j].name
  }

  /** Calls made one after another never create a second author with the
      same name (concurrent calls are outside this model). */
  lemma ResolveKeepsNamesUnique(authors: seq<Author>, name: string, lf: Option<string>, cf: Option<string>)
    requires NamesUnique(authors)
    ensures NamesUnique(Resolve(authors, name, lf, cf).authors)
  {
    var res := Resolve(authors, name, lf, cf);
    if res.authors != authors {
      var last := Author(NthId(|authors|), name);
      assert res.authors == authors + [last];
      forall i, j | 0 <= i < j < |res.authors| ensures res.authors[i].name != res.authors[j].name {
        if j == |authors| {
          assert res.authors[i] in authors;
        }
      }
    }
  }

  /** Resolving keeps the store well formed (ids in insertion order, every
      article's author present). */
  lemma ResolveKeepsWellFormed(t: Tables, name: string, lf: Option<string>, cf: Option<string>)
    requires WellFormed(t)
    ensures WellFormed(t.(authors := Resolve(t.authors, name, lf, cf).authors))
  {
    var res := Resolve(t.authors, name, lf, cf);
    var t' := t.(authors := res.authors);
    if res.authors != t.authors {
      assert res.authors == t.authors + [Author(NthId(|t.authors|), name)];
      forall i | 0 <= i < |t'.articles| ensures FindAuthorById(t'.authors, t'.articles[i].authorId).Some? {
        var a := FindAuthorById(t.authors, t.articles[i].authorId).value;
        assert a in t'.authors;
      }
    }
  }

  /** The author repository over the shared database. */
  class PostgresRepository {
    const db: Database

    constructor (db: Database)
      ensures this.db == db
    {
      this.db := db;
    }

    method GetAuthorByName(name: string, fault: Option<string>) returns (r: Result<Author>)
      ensures r == LookupOutcome(db.tables.authors, name, fault)
    {
      if fault.Some? {
        return Err(Db(fault.value));
      }
      var found := FindByName(db.tables.authors, name);
      if found.None? {
        return Err(NoRows);
      }
      return Ok(found.value);
    }

    method CreateAuthor(author: Author, fault: Option<string>) returns (r: Result<Author>)
      modifies db
      ensures var c := CreateOutcome(old(db.tables.authors), author, fault);
        r == c.result && db.tables == old(db.tables).(authors := c.authors)
    {
      if fault.Some? {
        return Err(Db(fault.value));
      }
      var created := author.(id := NthId(|db.tables.authors|));
      db.tables := db.tables.(authors := db.tables.authors + [created]);
      return Ok(created);
    }
  }

  class AuthorService {
    const repo: PostgresRepository
    /** The repository calls this service has made, oldest first. */
    ghost var calls: seq<RepoCall>

    constructor (repo: PostgresRepository)
      ensures this.repo == repo && calls == []
    {
      this.repo := repo;
      calls := [];
    }

    method GetOrCreateAuthor(name: string, lookupFault: Option<string>, createFault: Option<string>) returns (r: Result<Author>)
      modifies this, repo.db
      ensures var res := Resolve(old(repo.db.tables.authors), name, lookupFault, createFault);
        && r == res.result
        && repo.db.tables == old(repo.db.tables).(authors := res.authors)
        && calls == old(calls) + res.calls
    {
      calls := calls + [LookupCall(name)];
      var found := repo.GetAuthorByName(name, lookupFault);
      if found.Err? {
        if Is(found.error, NoRows) {
          var newAuthor := Author("", name);
          calls := calls + [CreateCall(newAuthor)];
          var created := repo.CreateAuthor(newAuthor, createFault);
          if created.Err? {
            return Err(InternalDb);
          }
          return created;
        }
        return Err(InternalDb);
      }
      return found;
    }
  }
}
