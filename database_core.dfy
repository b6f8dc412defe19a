/** The database layer: the `retry_on_error` decorator, the `DatabaseManager`
    singleton, the result dispatch of `execute_query`, the dynamic UPDATE of
    `update_user` and the delete dispatch of `delete_download_history`.
    The driver itself is not modelled: every call into it is an input. */
module DatabaseCore {
  import opened Python

  // ---------------------------------------------------------------------------
  // retry_on_error
  // ---------------------------------------------------------------------------

  /** What the retry wrapper does, in the order it does it. */
  datatype Event = Call | Sleep

  /** A failure that the wrapper retries: only the driver's `Error`. */
  predicate Retryable<T>(a: Completion<T>)
  {
    a.Raised? && a.exc.DriverError?
  }

  /** The trace of `n` calls with exactly one sleep between each two consecutive calls. */
  function Interleaved(n: nat): (t: seq<Event>)
    ensures |t| == if n == 0 then 0 else 2 * n - 1
  {
    if n == 0 then []
    else if n == 1 then [Call]
    else Interleaved(n - 1) + [Sleep, Call]
  }

  /** Interleaved(n) alternates Call and Sleep, starting with a Call: so it starts and ends
      with a Call, and a sleep only ever happens between two calls. */
  lemma {:induction false} InterleavedAlternates(n: nat)
    ensures forall i :: 0 <= i < |Interleaved(n)| ==>
      Interleaved(n)[i] == (if i % 2 == 0 then Call else Sleep)
  {
    if n > 1 {
      InterleavedAlternates(n - 1);
    }
  }

  /** Counting the events of Interleaved(n): n calls and n - 1 sleeps. */
  lemma {:induction false} InterleavedCounts(n: nat)
    requires n > 0
    ensures Occurrences(Interleaved(n), Call) == n
    ensures Occurrences(Interleaved(n), Sleep) == n - 1
  {
    if n > 1 {
      InterleavedCounts(n - 1);
      OccurrencesAppend(Interleaved(n - 1), [Sleep, Call], Call);
      OccurrencesAppend(Interleaved(n - 1), [Sleep, Call], Sleep);
    }
  }

  /** The wrapper `retry_on_error(max_retries)` applied to a function whose successive calls
      complete as `attempts[0]`, `attempts[1]`, ... . `calls` counts the calls made and `trace`
      records the calls and sleeps in order. */
  method RetryOnError<T>(maxRetries: int, attempts: seq<Completion<T>>)
    returns (r: Completion<Option<T>>, ghost calls: nat, ghost trace: seq<Event>)
    requires maxRetries <= |attempts|
    // never called, and `None` is returned, when there is nothing to try
    ensures maxRetries <= 0 ==> calls == 0 && r == Returned(None)
    // at most max_retries calls, and at least one when max_retries is positive
    ensures maxRetries > 0 ==> 1 <= calls <= maxRetries
    // a call is followed by another only after a driver Error
    ensures forall j :: 0 <= j < calls - 1 ==> Retryable(attempts[j])
    // the first success is returned unchanged
    ensures calls > 0 && attempts[calls - 1].Returned? ==>
      r == Returned(Some(attempts[calls - 1].value))
    // any other exception propagates as it is, DatabaseError included
    ensures calls > 0 && attempts[calls - 1].Raised? && !Retryable(attempts[calls - 1]) ==>
      r == Raised(attempts[calls - 1].exc)
    // a driver Error on the last allowed call becomes DatabaseError
    ensures calls > 0 && Retryable(attempts[calls - 1]) ==>
      calls == maxRetries &&
      r == Raised(DatabaseError("Max retries reached: " + attempts[calls - 1].exc.msg))
    // one sleep between each two calls, none before the first or after the last
    ensures trace == Interleaved(calls)
    // what comes back: `None` exactly when nothing was tried, else a value or an exception
    // one of the allowed calls produced, or the wrapped last driver Error
    ensures r == Returned(None) <==> maxRetries <= 0
    ensures r.Returned? && r.value.Some? ==> Returned(r.value.value) in attempts[..maxRetries]
    ensures r.Raised? ==>
      || Raised(r.exc) in attempts[..maxRetries]
      || (attempts[maxRetries - 1].Raised? &&
          r == Raised(DatabaseError("Max retries reached: " + attempts[maxRetries - 1].exc.msg)))
  {
    var retries := 0;
    calls, trace := 0, [];
    while retries < maxRetries
      invariant retries == calls
      invariant retries == 0 || retries < maxRetries
      invariant forall j :: 0 <= j < retries ==> Retryable(attempts[j])
      invariant trace == if calls == 0 then [] else Interleaved(calls) + [Sleep]
    {
      var a := attempts[retries];
      ghost var before := trace;
      calls, trace := calls + 1, trace + [Call];
      assert trace == Interleaved(calls) by {
        if calls > 1 {
          assert before + [Call] == Interleaved(calls - 1) + [Sleep, Call];
        }
      }
      match a {
        case Returned(v) =>
          r := Returned(Some(v));
          return;
        case Raised(e) =>
          if !e.DriverError? {
            r := Raised(e);
            return;
          }
          retries := retries + 1;
          if retries == maxRetries {
            r := Raised(DatabaseError("Max retries reached: " + e.msg));
            return;
          }
          trace := trace + [Sleep];
      }
    }
    r := Returned(None);
  }

  // ---------------------------------------------------------------------------
  // DatabaseManager singleton
  // ---------------------------------------------------------------------------

  /** A DatabaseManager instance; `initialized` is its `_initialized` attribute, which reads
      the class default `False` until `__init__` sets it on the instance. */
  class DatabaseManager {
    var initialized: bool

    constructor ()
      ensures !initialized
    {
      initialized := false;
    }
  }

  /** The class object `DatabaseManager` with its class attributes: `_instance`, and whether
      `_pool` holds a pool that `_setup_pool` verified. The ghost counters record how many
      times `_setup_pool` ran and how many of those runs succeeded. */
  class ManagerClass {
    var instance: DatabaseManager?
    var poolReady: bool
    ghost var setupRuns: nat
    ghost var setupSuccesses: nat

    ghost predicate Valid()
      reads this, instance
    {
      && setupSuccesses <= setupRuns
      && (instance == null ==> setupRuns == 0 && !poolReady)
      && (instance != null && instance.initialized <==> setupSuccesses == 1)
      && (instance != null && instance.initialized ==> poolReady)
      && setupSuccesses <= 1
    }

    /** The class as it is defined: no instance, no pool. */
    constructor ()
      ensures Valid()
      ensures instance == null && !poolReady && setupRuns == 0 && setupSuccesses == 0
    {
      instance, poolReady := null, false;
      setupRuns, setupSuccesses := 0, 0;
    }

    /** `DatabaseManager.__new__`: the one instance, created on first use. */
    method New() returns (m: DatabaseManager)
      requires Valid()
      modifies this
      ensures Valid() && instance == m
      ensures old(instance) != null ==> m == old(instance)
      ensures old(instance) == null ==> fresh(m) && !m.initialized
      ensures poolReady == old(poolReady)
      ensures setupRuns == old(setupRuns) && setupSuccesses == old(setupSuccesses)
    {
      if instance == null {
        instance := new DatabaseManager();
      }
      m := instance;
    }

    /** `DatabaseManager.__init__` on the instance `m`: runs `_setup_pool` unless `m` is
        already initialized. `setupError` is how that run ends: `None` when the pool was
        created and verified, otherwise the exception it raised, which propagates. */
    method Init(m: DatabaseManager, setupError: Option<Exc>) returns (r: Completion<DatabaseManager>)
      requires Valid() && instance == m
      modifies this, m
      ensures Valid() && instance == m
      ensures old(m.initialized) ==>
        r == Returned(m) && m.initialized &&
        setupRuns == old(setupRuns) && setupSuccesses == old(setupSuccesses) &&
        poolReady == old(poolReady)
      ensures !old(m.initialized) ==>
        setupRuns == old(setupRuns) + 1 &&
        m.initialized == setupError.None? && poolReady == setupError.None? &&
        r == (if setupError.None? then Returned(m) else Raised(setupError.value))
    {
      if !m.initialized {
        setupRuns := setupRuns + 1;
        if setupError.Some? {
          poolReady := false;
          r := Raised(setupError.value);
          return;
        }
        poolReady := true;
        setupSuccesses := setupSuccesses + 1;
        m.initialized := true;
      }
      r := Returned(m);
    }

    /** `DatabaseManager()`: `__new__` followed by `__init__`. */
    method Construct(setupError: Option<Exc>) returns (r: Completion<DatabaseManager>)
      requires Valid()
      modifies this, instance
      ensures Valid() && instance != null
      ensures old(instance) != null ==> instance == old(instance)
      ensures r.Returned? ==> r.value == instance && instance.initialized && poolReady
      // once an instance is initialized, constructing again runs no setup
      ensures old(instance) != null && old(instance.initialized) ==>
        r == Returned(instance) && setupRuns == old(setupRuns)
      ensures old(instance) == null ==> fresh(instance)
      ensures !(old(instance) != null && old(instance.initialized)) ==>
        setupRuns == old(setupRuns) + 1 && (instance.initialized <==> setupError.None?)
      ensures setupError.None? ==> r == Returned(instance)
      // a setup that fails raises its own exception out of the constructor
      ensures !(old(instance) != null && old(instance.initialized)) && setupError.Some? ==>
        r == Raised(setupError.value)
      ensures setupSuccesses <= 1
    {
      var m := New();
      r := Init(m, setupError);
    }
  }

  /** The four module-level `db = DatabaseManager()` statements of the package (in
      database/core.py, database/__init__.py, database/setup.py and routes/sessions.py),
      run against a freshly defined class whose pool setup succeeds: all four
      obtain the same instance, and `_setup_pool` runs once. */
  method ImportTimeConstruction() returns (cls: ManagerClass, a: Completion<DatabaseManager>,
      b: Completion<DatabaseManager>, c: Completion<DatabaseManager>, d: Completion<DatabaseManager>)
    ensures a.Returned? && a == b && b == c && c == d
    ensures cls.setupRuns == 1 && cls.poolReady
  {
    cls := new ManagerClass();
    a := cls.Construct(None);
    b := cls.Construct(None);
    c := cls.Construct(None);
    d := cls.Construct(None);
  }

  // ---------------------------------------------------------------------------
  // execute_query result dispatch
  // ---------------------------------------------------------------------------

  /** What `execute_query` returns once the statement ran, given its flags; `rows` is the
      result set and `lastRowId` the cursor's `lastrowid`. The flags are tested in the
      order return_last_id, fetch_one, fetch_all. */
  function QueryReturn(returnLastId: bool, fetchOne: bool, fetchAll: bool,
                       rows: seq<Row>, lastRowId: int): (r: QueryResult)
    // without any flag the rows are discarded and the result is the constant True
    ensures !returnLastId && !fetchOne && !fetchAll ==> r == Flag(true) && Truthy(r) && Len(r).None?
    ensures returnLastId ==> r == LastId(lastRowId)
    // fetch_one is tested before fetch_all: the first row, or None when there is none
    ensures !returnLastId && fetchOne ==> r == One(if rows == [] then None else Some(rows[0]))
    ensures !returnLastId && fetchAll && !fetchOne ==> r == All(rows) && Len(r) == Some(|rows|)
  {
    if returnLastId then LastId(lastRowId)
    else if fetchOne then One(if rows == [] then None else Some(rows[0]))
    else if fetchAll then All(rows)
    else Flag(true)
  }

  // ---------------------------------------------------------------------------
  // Statements
  // ---------------------------------------------------------------------------

  /** A parametrised SQL statement as it is handed to `execute_query`. */
  datatype Statement = Statement(sql: string, params: seq<Value>)

  // ---------------------------------------------------------------------------
  // update_user
  // ---------------------------------------------------------------------------

  /** The columns `update_user` can set. */
  datatype Column = Username | Email | Password | IsActive

  /** The fixed order in which `update_user` considers the columns. */
  const ColumnOrder: seq<Column> := [Username, Email, Password, IsActive]

  function ColumnName(c: Column): string
  {
    match c
    case Username => "username"
    case Email => "email"
    case Password => "password"
    case IsActive => "is_active"
  }

  /** The position of a column in ColumnOrder. */
  function Rank(c: Column): nat
  {
    match c
    case Username => 0
    case Email => 1
    case Password => 2
    case IsActive => 3
  }

  /** The optional keyword arguments of `update_user`; `None` leaves a column alone. */
  datatype UserChanges = UserChanges(username: Option<string>, email: Option<string>,
                                     password: Option<string>, isActive: Option<bool>)

  /** The argument for column `c`, `None` when it was not given. */
  function NewValue(ch: UserChanges, c: Column): Option<Value>
  {
    match c
    case Username => if ch.username.Some? then Some(VStr(ch.username.value)) else None
    case Email => if ch.email.Some? then Some(VStr(ch.email.value)) else None
    case Password => if ch.password.Some? then Some(VStr(ch.password.value)) else None
    case IsActive => if ch.isActive.Some? then Some(VBool(ch.isActive.value)) else None
  }

  /** The columns of `cols` whose argument was given, in the order of `cols`. */
  function Given(cols: seq<Column>, ch: UserChanges): (g: seq<Column>)
    ensures |g| <= |cols|
  {
    if cols == [] then []
    else (if NewValue(ch, cols[0]).Some? then [cols[0]] else []) + Given(cols[1..], ch)
  }

  /** The SET clause of one column. */
  function Assignment(c: Column): string
  {
    ColumnName(c) + " = %s"
  }

  /** The SET clauses of the given columns, one per column, in their order. */
  function Assignments(cols: seq<Column>): (a: seq<string>)
    ensures |a| == |cols|
    ensures forall i :: 0 <= i < |cols| ==> a[i] == Assignment(cols[i])
  {
    seq(|cols|, i requires 0 <= i < |cols| => Assignment(cols[i]))
  }

  /** The parameters bound to the given columns, one per column, in their order. */
  function Arguments(ch: UserChanges, cols: seq<Column>): (p: seq<Value>)
    ensures |p| == |cols|
    ensures forall i :: 0 <= i < |cols| ==> Some(p[i]) == NewValue(ch, cols[i]) || NewValue(ch, cols[i]).None?
  {
    seq(|cols|, i requires 0 <= i < |cols| =>
      var v := NewValue(ch, cols[i]); if v.Some? then v.value else VNone)
  }

  /** The fixed text around the SET clauses of `update_user`. */
  const UpdatePrefix: string := "UPDATE USER SET "
  const WhereId: string := " WHERE id = %s"

  /** The UPDATE statement text for the given SET clauses. */
  function UpdateSql(clauses: seq<string>): string
  {
    UpdatePrefix + Join(", ", clauses) + WhereId
  }

  /** `update_user(user_id, username, email, password, is_active)`. `issued` is the statement
      handed to `execute_query`, `None` when no query is run, and `call` is how that call
      completes. The result is `False` when nothing is to be updated, and otherwise whatever
      `execute_query` returns or raises. */
  method UpdateUser(userId: int, ch: UserChanges, call: Completion<QueryResult>)
    returns (r: Completion<QueryResult>, issued: Option<Statement>)
    ensures issued.None? <==> Given(ColumnOrder, ch) == []
    ensures issued.None? ==> r == Returned(Flag(false))
    ensures issued.Some? ==> r == call
    ensures issued.Some? ==>
      var cols := Given(ColumnOrder, ch);
      && issued.value.sql == UpdateSql(Assignments(cols))
      && issued.value.params == Arguments(ch, cols) + [VInt(userId)]
  {
    var updates: seq<string> := [];
    var params: seq<Value> := [];
    ghost var cols: seq<Column> := [];
    updates, params, cols := AddColumn(ch, [], Username, updates, params, cols);
    updates, params, cols := AddColumn(ch, [Username], Email, updates, params, cols);
    updates, params, cols := AddColumn(ch, [Username, Email], Password, updates, params, cols);
    updates, params, cols := AddColumn(ch, [Username, Email, Password], IsActive, updates, params, cols);
    assert [Username, Email, Password] + [IsActive] == ColumnOrder;
    if updates == [] {
      return Returned(Flag(false)), None;
    }
    var sql := UpdatePrefix + Join(", ", updates) + WhereId;
    params := params + [VInt(userId)];
    return call, Some(Statement(sql, params));
  }

  /** One `if <column> is not None:` step of `update_user`: when the column's argument was
      given, append its SET clause and its parameter. `seen` are the columns already looked at. */
  method AddColumn(ch: UserChanges, ghost seen: seq<Column>, c: Column,
                   updates: seq<string>, params: seq<Value>, ghost cols: seq<Column>)
    returns (updates': seq<string>, params': seq<Value>, ghost cols': seq<Column>)
    requires cols == Given(seen, ch) && updates == Assignments(cols) && params == Arguments(ch, cols)
    ensures cols' == Given(seen + [c], ch)
    ensures updates' == Assignments(cols') && params' == Arguments(ch, cols')
  {
    GivenSnoc(seen, c, ch);
    var v := NewValue(ch, c);
    if v.Some? {
      AppendColumn(ch, cols, c);
      updates', params', cols' := updates + [Assignment(c)], params + [v.value], cols + [c];
    } else {
      updates', params', cols' := updates, params, cols;
    }
  }

  /** Appending one given column appends its clause and its argument. */
  lemma AppendColumn(ch: UserChanges, cols: seq<Column>, c: Column)
    requires NewValue(ch, c).Some?
    ensures Assignments(cols + [c]) == Assignments(cols) + [Assignment(c)]
    ensures Arguments(ch, cols + [c]) == Arguments(ch, cols) + [NewValue(ch, c).value]
  {
  }

  /** Looking at one more column adds it exactly when its argument was given. */
  lemma {:induction false} GivenSnoc(cols: seq<Column>, c: Column, ch: UserChanges)
    ensures Given(cols + [c], ch) == Given(cols, ch) + (if NewValue(ch, c).Some? then [c] else [])
  {
    if cols == [] {
      assert cols + [c] == [c];
      assert [c][1..] == [];
    } else {
      assert (cols + [c])[1..] == cols[1..] + [c];
      GivenSnoc(cols[1..], c, ch);
    }
  }

  /** A column gets a SET clause exactly when its argument was given. */
  lemma {:induction false} GivenMembers(cols: seq<Column>, ch: UserChanges, c: Column)
    ensures c in Given(cols, ch) <==> c in cols && NewValue(ch, c).Some?
  {
    if cols != [] {
      GivenMembers(cols[1..], ch, c);
      assert cols == [cols[0]] + cols[1..];
    }
  }

  /** Columns in strictly increasing fixed order. */
  ghost predicate InFixedOrder(cols: seq<Column>)
  {
    forall i, j :: 0 <= i < j < |cols| ==> Rank(cols[i]) < Rank(cols[j])
  }

  /** Keeping only the given columns keeps the fixed order. */
  lemma {:induction false} GivenKeepsOrder(cols: seq<Column>, ch: UserChanges)
    requires InFixedOrder(cols)
    ensures InFixedOrder(Given(cols, ch))
    ensures forall c :: c in Given(cols, ch) ==> c in cols
  {
    if cols != [] {
      assert InFixedOrder(cols[1..]);
      GivenKeepsOrder(cols[1..], ch);
      var rest := Given(cols[1..], ch);
      forall c | c in rest ensures Rank(cols[0]) < Rank(c) {
        var k :| 0 <= k < |cols[1..]| && cols[1..][k] == c;
        assert cols[k + 1] == c;
      }
    }
  }

  /** The clauses of `update_user` follow the order username, email, password, is_active, and
      a column has a clause exactly when its argument is not None. */
  lemma UpdateColumns(ch: UserChanges)
    ensures InFixedOrder(Given(ColumnOrder, ch))
    ensures forall c :: c in Given(ColumnOrder, ch) <==> NewValue(ch, c).Some?
    ensures Given(ColumnOrder, ch) == [] <==>
      ch.username.None? && ch.email.None? && ch.password.None? && ch.isActive.None?
  {
    GivenKeepsOrder(ColumnOrder, ch);
    forall c ensures c in Given(ColumnOrder, ch) <==> NewValue(ch, c).Some? {
      GivenMembers(ColumnOrder, ch, c);
    }
    var given := Given(ColumnOrder, ch);
    assert NewValue(ch, Username).Some? ==> Username in given;
    assert NewValue(ch, Email).Some? ==> Email in given;
    assert NewValue(ch, Password).Some? ==> Password in given;
    assert NewValue(ch, IsActive).Some? ==> IsActive in given;
    if given != [] {
      assert given[0] in given;
    }
  }

  /** The statement `update_user` issues has exactly one `%s` placeholder per parameter: one
      per SET clause and the last one for the id. */
  lemma UpdatePlaceholdersMatchParams(userId: int, ch: UserChanges)
    ensures var cols := Given(ColumnOrder, ch);
      Occurrences(UpdateSql(Assignments(cols)), '%') == |Arguments(ch, cols) + [VInt(userId)]|
  {
    var cols := Given(ColumnOrder, ch);
    JoinedPlaceholders(cols);
    UpdateSqlPlaceholders(Assignments(cols));
  }

  /** The fixed text around the SET clauses adds one placeholder, the id's. */
  lemma UpdateSqlPlaceholders(clauses: seq<string>)
    ensures Occurrences(UpdateSql(clauses), '%') == Occurrences(Join(", ", clauses), '%') + 1
  {
    var pre, joined, post := UpdatePrefix, Join(", ", clauses), WhereId;
    assert UpdateSql(clauses) == pre + joined + post;
    PrefixPlaceholders();
    WherePlaceholder();
    OccurrencesAppend(pre, joined, '%');
    OccurrencesAppend(pre + joined, post, '%');
  }

  lemma PrefixPlaceholders()
    ensures Occurrences(UpdatePrefix, '%') == 0
  {
    OccurrencesAbsent(UpdatePrefix, '%');
  }

  lemma WherePlaceholder()
    ensures Occurrences(WhereId, '%') == 1
  {
    assert WhereId == " WHERE id = " + "%" + "s";
    OnePlaceholder(" WHERE id = ", "s");
  }

  /** Text around a single `%` adds no placeholder of its own. */
  lemma OnePlaceholder(pre: string, post: string)
    requires '%' !in pre && '%' !in post
    ensures Occurrences(pre + "%" + post, '%') == 1
  {
    OccurrencesAbsent(pre, '%');
    OccurrencesAbsent(post, '%');
    OccurrencesAppend(pre, "%", '%');
    OccurrencesAppend(pre + "%", post, '%');
  }

  /** Joining the SET clauses of some columns keeps one placeholder per column. */
  lemma {:induction false} JoinedPlaceholders(cols: seq<Column>)
    ensures Occurrences(Join(", ", Assignments(cols)), '%') == |cols|
  {
    if cols != [] {
      AssignmentPlaceholder(cols[0]);
      if |cols| > 1 {
        JoinedPlaceholders(cols[1..]);
        assert Assignments(cols)[1..] == Assignments(cols[1..]);
        OccurrencesAbsent(", ", '%');
        OccurrencesAppend(Assignment(cols[0]), ", ", '%');
        OccurrencesAppend(Assignment(cols[0]) + ", ", Join(", ", Assignments(cols[1..])), '%');
      }
    }
  }

  lemma AssignmentPlaceholder(c: Column)
    ensures Occurrences(Assignment(c), '%') == 1
  {
    assert Assignment(c) == ColumnName(c) + " = " + "%" + "s";
    OnePlaceholder(ColumnName(c) + " = ", "s");
  }

  // ---------------------------------------------------------------------------
  // delete_download_history
  // ---------------------------------------------------------------------------

  /** The two DELETE statements of `delete_download_history`. */
  const DeleteOneSql: string := "DELETE FROM DOWNLOAD_HISTORY WHERE user_id = %s AND id = %s"
  const DeleteAllSql: string := "DELETE FROM DOWNLOAD_HISTORY WHERE user_id = %s"

  /** Python truthiness of the optional `download_id`: `None` and `0` are false. */
  predicate TruthyId(downloadId: Option<int>)
  {
    downloadId.Some? && downloadId.value != 0
  }

  /** What `delete_download_history` does: the DELETE it hands to `execute_query`, and what
      it gives back. */
  datatype Deleted = Deleted(issued: Statement, result: Completion<QueryResult>)

  /** `delete_download_history(user_id, download_id)`; `call` is how the `execute_query` call
      completes, and the method returns that result or lets that exception propagate. */
  function DeleteDownloadHistory(userId: int, downloadId: Option<int>, call: Completion<QueryResult>): (d: Deleted)
    // one record of the user only when download_id is truthy ...
    ensures TruthyId(downloadId) ==>
      d.issued == Statement(DeleteOneSql, [VInt(userId), VInt(downloadId.value)])
    // ... otherwise, for None and for 0 alike, the user's whole history
    ensures !TruthyId(downloadId) ==>
      d.issued == Statement(DeleteAllSql, [VInt(userId)])
    ensures d.result == call
  {
    var st :=
      if downloadId.Some? && downloadId.value != 0 then
        Statement(DeleteOneSql, [VInt(userId), VInt(downloadId.value)])
      else
        Statement(DeleteAllSql, [VInt(userId)]);
    Deleted(st, call)
  }

  /** A history record, as far as the two DELETE statements look at it. */
  datatype HistoryRecord = HistoryRecord(id: int, userId: int)

  /** Which records a DELETE statement of `delete_download_history` removes, read from its
      parameters: the user's records, narrowed to one id when an id is bound. */
  predicate Removes(st: Statement, rec: HistoryRecord)
  {
    && |st.params| >= 1 && st.params[0] == VInt(rec.userId)
    && (|st.params| >= 2 ==> st.params[1] == VInt(rec.id))
  }

  /** `download_id = 0` is falsy, so it removes all of the user's history, like `None`:
      a record of the user is removed for every id it has, and other users' records never. */
  lemma DeleteScope(userId: int, downloadId: Option<int>, call: Completion<QueryResult>, rec: HistoryRecord)
    ensures Removes(DeleteDownloadHistory(userId, downloadId, call).issued, rec) <==>
      rec.userId == userId && (TruthyId(downloadId) ==> rec.id == downloadId.value)
    ensures DeleteDownloadHistory(userId, Some(0), call) == DeleteDownloadHistory(userId, None, call)
  {
  }
}
