/** Vocabulary shared by every part of the model: optional values, results,
    the clock and the error values the Go packages define. */
module Common {

  datatype Option<+T> = None | Some(value: T)

  datatype Result<+T, +E> = Ok(value: T) | Err(error: E)

  /** Instants are Unix seconds (UTC) and durations whole seconds. */
  type Time = int

  const Hour: int := 3600

  /** Go's time.Duration is an int64 count of nanoseconds, so Time.Sub saturates;
      these are its bounds in whole seconds. */
  const MaxDuration: int := 9223372036
  const MinDuration: int := -9223372036

  /** Go's zero time, 0001-01-01 00:00:00 UTC, in Unix seconds: what a NULL
      timestamp column scans into when it is read into a plain time.Time. */
  const ZeroTime: Time := -62135596800

  /** Go's t.Sub(u): the difference, clamped to the range of a Duration. */
  function Sub(t: Time, u: Time): (d: int)
    ensures MinDuration <= d <= MaxDuration
    ensures MinDuration <= t - u <= MaxDuration ==> d == t - u
    ensures t - u > MaxDuration ==> d == MaxDuration
    ensures t - u < MinDuration ==> d == MinDuration
  {
    if t - u > MaxDuration then MaxDuration
    else if t - u < MinDuration then MinDuration
    else t - u
  }

  /** The error values of internal/repository/repository.go and
      internal/service/service.go, plus the two shapes fmt.Errorf produces. */
  datatype Error =
    // repository package
    | RepoNotFound
    | RepoQuestNotStarted
    | RepoQuestAlreadyClaimed
    | RepoQuestNotFound
    | RepoValidationNotFound
    | RepoValidationAlreadyExists
    // service package
    | SvcClaimNotAvailable
    | SvcUserNotFound
    | SvcQuestNotFound
    | SvcQuestNotStarted
    | SvcQuestAlreadyClaimed
    | SvcValidationNameExists
    /** An error with a fresh message and no cause (fmt.Errorf without %w,
        or an error raised by the database). */
    | Message(text: string)
    /** fmt.Errorf("context: %w", cause). */
    | Wrapped(context: string, cause: Error)

  /** errors.Is: the error or any error it wraps is the target. */
  predicate Is(e: Error, target: Error)
    decreases e
  {
    e == target || (e.Wrapped? && Is(e.cause, target))
  }

  function Wrap(context: string, cause: Error): (e: Error)
    ensures forall target :: Is(cause, target) ==> Is(e, target)
  {
    Wrapped(context, cause)
  }

  /** sql.ErrNoRows, as raised by a single-row query that matched nothing. */
  const NoRows: Error := Message("sql: no rows in result set")
  /** A unique or primary key violation raised by PostgreSQL. */
  const DuplicateKey: Error := Message("duplicate key value violates unique constraint")

  /** A finite non-empty set of integers has a largest element. */
  lemma {:induction false} MaxExists(s: set<int>)
    requires s != {}
    ensures exists m :: m in s && forall x :: x in s ==> x <= m
    decreases |s|
  {
    if forall x :: x !in s {
      assert false;
    }
    var y :| y in s;
    var rest := s - {y};
    if exists x :: x in rest {
      MaxExists(rest);
      var m :| m in rest && forall x :: x in rest ==> x <= m;
      var top := if y > m then y else m;
      assert forall x :: x in s ==> x == y || x in rest;
      assert top in s && forall x :: x in s ==> x <= top;
    } else {
      assert forall x :: x in s ==> x == y || x in rest;
      assert forall x :: x in s ==> x <= y;
    }
  }

  /** The largest element of a finite non-empty set of integers (the value
      an ORDER BY ... DESC LIMIT 1 or a MAX() yields). */
  ghost function Max(s: set<int>): (m: int)
    requires s != {}
    ensures m in s
    ensures forall x :: x in s ==> x <= m
  {
    MaxExists(s);
    var m :| m in s && forall x :: x in s ==> x <= m;
    m
  }

  /** A finite non-empty set of integers has a smallest element. */
  lemma {:induction false} MinExists(s: set<int>)
    requires s != {}
    ensures exists m :: m in s && forall x :: x in s ==> m <= x
    decreases |s|
  {
    if forall x :: x !in s {
      assert false;
    }
    var y :| y in s;
    var rest := s - {y};
    if exists x :: x in rest {
      MinExists(rest);
      var m :| m in rest && forall x :: x in rest ==> m <= x;
      var low := if y < m then y else m;
      assert forall x :: x in s ==> x == y || x in rest;
      assert low in s && forall x :: x in s ==> low <= x;
    } else {
      assert forall x :: x in s ==> x == y || x in rest;
      assert forall x :: x in s ==> y <= x;
    }
  }

  /** The smallest element of a finite non-empty set of integers. */
  function Least(s: set<int>): (m: int)
    requires s != {}
    ensures m in s
    ensures forall x :: x in s ==> m <= x
  {
    MinExists(s);
    var m :| m in s && forall x :: x in s ==> m <= x;
    m
  }

  /** The elements of a finite set of integers in ascending order (the order
      an ORDER BY on the column yields). */
  function Ascending(s: set<int>): (xs: seq<int>)
    ensures |xs| == |s|
    ensures forall x :: x in s <==> x in xs
    ensures forall i, j :: 0 <= i < j < |xs| ==> xs[i] < xs[j]
    decreases |s|
  {
    if s == {} then []
    else
      var m := Least(s);
      var rest := Ascending(s - {m});
      [m] + rest
  }
}
