/** The two parameterised article SELECTs as the database sees them: a
    statement shape whose `$n` placeholders are bound positionally to an
    argument list, how the database evaluates them, and how a row stream can
    fail while it is read. */
module Sql {
  import opened Errors
  import opened Numbers
  import opened Model
  import opened Store

  /** A bound argument: a string, a Go int, or a `pq.Array` of strings. */
  datatype Arg = Text(text: string) | Int(n: int) | TextArray(items: seq<string>)

  /** `SELECT … FROM articles a JOIN authors … [WHERE authors.name = $a]
      ORDER BY created_at DESC LIMIT $l OFFSET $o`; each field is the
      number n of a `$n`. */
  datatype ListQuery = ListQuery(authorParam: Option<nat>, limitParam: nat, offsetParam: nat)

  /** `SELECT … WHERE a.id = ANY($i) [AND authors.name = $a]
      ORDER BY created_at DESC`. */
  datatype ByIdQuery = ByIdQuery(idsParam: nat, authorParam: Option<nat>)

  /** The placeholder numbers in the order they appear in the statement text. */
  function ListPlaceholders(q: ListQuery): seq<nat>
  {
    (if q.authorParam.Some? then [q.authorParam.value] else []) + [q.limitParam, q.offsetParam]
  }

  function ByIdPlaceholders(q: ByIdQuery): seq<nat>
  {
    [q.idsParam] + (if q.authorParam.Some? then [q.authorParam.value] else [])
  }

  /** The statement's placeholders read $1, $2, … in textual order and
      there is one argument per placeholder. */
  predicate NumberedInOrder(ps: seq<nat>, args: seq<Arg>)
  {
    |ps| == |args| && forall k :: 0 <= k < |ps| ==> ps[k] == k + 1
  }

  /** The value bound to `$n`, or the error the driver reports. */
  function Param(args: seq<Arg>, n: nat): Result<Arg>
  {
    if 1 <= n <= |args| then Ok(args[n - 1]) else Err(Db("could not determine data type of parameter"))
  }

  /** The driver sends a Go int as its decimal text, so a text placeholder
      accepts it; a string array is not taken as text. */
  function TextParam(args: seq<Arg>, n: nat): Result<string>
  {
    var a :- Param(args, n);
    match a
    case Text(s) => Ok(s)
    case Int(v) => Ok(Decimal(v))
    case TextArray(_) => Err(Db("invalid input syntax for type text"))
  }

  /** A bigint placeholder takes a Go int, or text that reads as a decimal
      integer (`Atoi` stands in for PostgreSQL's bigint input, which also
      allows surrounding blanks). */
  function IntParam(args: seq<Arg>, n: nat): Result<int>
  {
    var a :- Param(args, n);
    match a
    case Int(v) => Ok(v)
    case Text(s) =>
      (match Atoi(s)
       case Some(v) => Ok(v)
       case None => Err(Db("invalid input syntax for type bigint")))
    case TextArray(_) => Err(Db("invalid input syntax for type bigint"))
  }

  function ArrayParam(args: seq<Arg>, n: nat): Result<seq<string>>
  {
    var a :- Param(args, n);
    if a.TextArray? then Ok(a.items) else Err(Db("malformed array literal"))
  }

  function OptionalText(args: seq<Arg>, n: Option<nat>): Result<Option<string>>
  {
    match n
    case None => Ok(None)
    case Some(k) =>
      var s :- TextParam(args, k);
      Ok(Some(s))
  }

  const NegativeLimit := "LIMIT must not be negative"
  const NegativeOffset := "OFFSET must not be negative"

  /** What the list statement yields for given values: PostgreSQL refuses a
      negative LIMIT or OFFSET. */
  function ListResult(t: Tables, author: Option<string>, limit: int, offset: int): Result<seq<Article>>
  {
    if limit < 0 then Err(Db(NegativeLimit))
    else if offset < 0 then Err(Db(NegativeOffset))
    else Ok(ListRows(t, author, limit, offset))
  }

  /** The database executing the list statement with its arguments. */
  function EvalList(t: Tables, q: ListQuery, args: seq<Arg>): Result<seq<Article>>
  {
    var author :- OptionalText(args, q.authorParam);
    var limit :- IntParam(args, q.limitParam);
    var offset :- IntParam(args, q.offsetParam);
    ListResult(t, author, limit, offset)
  }

  /** The database executing the by-id statement with its arguments. */
  function EvalById(t: Tables, q: ByIdQuery, args: seq<Arg>): Result<seq<Article>>
  {
    var ids :- ArrayParam(args, q.idsParam);
    var author :- OptionalText(args, q.authorParam);
    Ok(ByIdRows(t, ids, author))
  }

  /** The arguments of the list statement, in the order GetArticles appends them. */
  function ListArgs(author: Option<string>, limit: int, offset: int): seq<Arg>
  {
    (if author.Some? then [Text(author.value)] else []) + [Int(limit), Int(offset)]
  }

  /** Numbering the placeholders in textual order from $1 and appending the
      arguments in that same order binds every placeholder to the intended
      value: the statement means "filter by author, newest first, LIMIT,
      OFFSET" for exactly the filter's values. */
  lemma ListBindingIsFaithful(t: Tables, q: ListQuery, author: Option<string>, limit: int, offset: int)
    requires NumberedInOrder(ListPlaceholders(q), ListArgs(author, limit, offset))
    requires q.authorParam.Some? <==> author.Some?
    ensures EvalList(t, q, ListArgs(author, limit, offset)) == ListResult(t, author, limit, offset)
  {
    var ps, args := ListPlaceholders(q), ListArgs(author, limit, offset);
    if author.Some? {
      assert ps[0] == 1 && ps[1] == 2 && ps[2] == 3;
    } else {
      assert ps[0] == 1 && ps[1] == 2;
    }
  }

  /** The arguments of the by-id statement: the id array, then the author if any. */
  function ByIdArgs(ids: seq<string>, author: Option<string>): seq<Arg>
  {
    [TextArray(ids)] + (if author.Some? then [Text(author.value)] else [])
  }

  lemma ByIdBindingIsFaithful(t: Tables, q: ByIdQuery, ids: seq<string>, author: Option<string>)
    requires NumberedInOrder(ByIdPlaceholders(q), ByIdArgs(ids, author))
    requires q.authorParam.Some? <==> author.Some?
    ensures EvalById(t, q, ByIdArgs(ids, author)) == Ok(ByIdRows(t, ids, author))
  {
    var ps := ByIdPlaceholders(q);
    assert ps[0] == 1;
    if author.Some? {
      assert ps[1] == 2;
    }
  }

  /** Binding by position is what makes the numbering matter: with the
      author filter present, numbering LIMIT as $1 instead would read the
      author's name as the row limit and fail. */
  lemma MisnumberedListFails(t: Tables)
    ensures EvalList(t, ListQuery(Some(2), 1, 3), ListArgs(Some("Ada"), 10, 0))
      == Err(Db("invalid input syntax for type bigint"))
  {
    AtoiRejectsNonDigits("Ada", 1);
  }

  // ---- reading the row stream ----

  /** How a SELECT can fail: the statement itself, the scan of one row, or
      the stream (reported by `rows.Err()` once iteration stops). */
  datatype DbFault =
    | Healthy
    | QueryFails(detail: string)
    | ScanFails(row: nat, detail: string)
    | IterationFails(detail: string)

  /** Whether reading `n` rows under `fault` delivers them all. */
  predicate Delivers(fault: DbFault, n: nat)
  {
    !fault.QueryFails? && !(fault.ScanFails? && fault.row < n) && !fault.IterationFails?
  }

  /** The outcome of scanning `rows`: all of them, or an error — never a
      prefix. */
  function Scanned(rows: seq<Article>, fault: DbFault): (r: Result<seq<Article>>)
    requires !fault.QueryFails?
    ensures r.Ok? <==> Delivers(fault, |rows|)
    ensures r.Ok? ==> r.value == rows
  {
    if fault.ScanFails? && fault.row < |rows| then Err(Db(fault.detail))
    else if fault.IterationFails? then Err(Db(fault.detail))
    else Ok(rows)
  }
}
