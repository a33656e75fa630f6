/** Errors as the service reports them: collaborator failures, the two
    sentinels (`sql.ErrNoRows` and the author package's `ErrInternalDBError`)
    and the stage-identifying wrappers built with `fmt.Errorf("...%w...")`. */
module Errors {

  datatype Option<+T> = None | Some(value: T)

  datatype Result<+T> = Ok(value: T) | Err(error: Error) {
    predicate IsFailure() { Err? }

    function PropagateFailure<U>(): Result<U>
      requires Err?
    {
      Err(error)
    }

    function Extract(): T
      requires Ok?
    {
      value
    }
  }

  /** The stage at which the article service wraps a failure. */
  datatype Stage =
    | ResolvingAuthor      // "%w: failed to resolve author"
    | PostingArticle       // "failed to post article: %w"
    | SearchingArticles    // "failed to search articles: %w"
    | RetrievingDetails    // "failed to retrieve articles details: %w"
    | GettingArticles      // "failed to get articles: %w"

  datatype Error =
    | Db(detail: string)               // any failure the database driver reports
    | NoRows                           // sql.ErrNoRows: a single-row query found nothing
    | InternalDb                       // author.ErrInternalDBError
    | SearchEngine(detail: string)     // any failure the search engine reports
    | Wrapped(stage: Stage, cause: Error)

  function StageText(s: Stage): string
  {
    match s
    case ResolvingAuthor => "failed to resolve author"
    case PostingArticle => "failed to post article"
    case SearchingArticles => "failed to search articles"
    case RetrievingDetails => "failed to retrieve articles details"
    case GettingArticles => "failed to get articles"
  }

  /** The text `err.Error()` yields. Author resolution puts the cause first,
      every other stage puts it last. */
  function Message(e: Error): string
  {
    match e
    case Db(d) => d
    case NoRows => "sql: no rows in result set"
    case InternalDb => "internal database error"
    case SearchEngine(d) => d
    case Wrapped(s, c) =>
      if s == ResolvingAuthor then Message(c) + ": " + StageText(s)
      else StageText(s) + ": " + Message(c)
  }

  /** `errors.Is`: the error itself or any error it wraps is the target. */
  predicate Is(e: Error, target: Error)
  {
    e == target || (e.Wrapped? && Is(e.cause, target))
  }

  /** Wrap the error of a failed result with a stage; pass a success through. */
  function Staged<T>(s: Stage, r: Result<T>): (w: Result<T>)
    ensures w.Ok? <==> r.Ok?
    ensures r.Ok? ==> w == r
    ensures r.Err? ==> w.error.Wrapped? && w.error.stage == s && Is(w.error, r.error)
  {
    match r
    case Ok(v) => Ok(v)
    case Err(e) => Err(Wrapped(s, e))
  }

  /** `part` occurs in `s` starting at index `i`. */
  predicate OccursAt(s: string, part: string, i: int)
  {
    0 <= i <= |s| - |part| && s[i..i + |part|] == part
  }

  predicate Contains(s: string, part: string)
  {
    exists i | 0 <= i <= |s| :: OccursAt(s, part, i)
  }

  /** A wrapped error's message names its stage and still carries the
      message of its cause (what the service tests look for with
      `assert.Contains`). */
  lemma WrappedMessage(s: Stage, c: Error)
    ensures Contains(Message(Wrapped(s, c)), StageText(s))
    ensures Contains(Message(Wrapped(s, c)), Message(c))
  {
    var t, mc := StageText(s), Message(c);
    if s == ResolvingAuthor {
      var head := mc + ": ";
      assert Message(Wrapped(s, c)) == head + t;
      assert OccursAt(head + t, t, |head|);
      assert OccursAt(head + t, mc, 0) by { assert (head + t)[..|mc|] == head[..|mc|]; }
    } else {
      var head := t + ": ";
      assert Message(Wrapped(s, c)) == head + mc;
      assert OccursAt(head + mc, mc, |head|);
      assert OccursAt(head + mc, t, 0) by { assert (head + mc)[..|t|] == head[..|t|]; }
    }
  }
}
