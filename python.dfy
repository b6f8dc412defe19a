/** The few Python runtime notions the modelled code relies on: optional values,
    the exceptions it tells apart, how a call completes, driver values and rows,
    and the truthiness, `len` and `[0]` of what `execute_query` returns. */
module Python {

  datatype Option<+T> = None | Some(value: T)

  /** The exception classes the modelled code distinguishes in its `except` clauses. */
  datatype Exc =
    | DriverError(msg: string)     // mysql.connector.Error
    | DatabaseError(msg: string)   // database.core.DatabaseError
    | OtherException(msg: string)  // TypeError, IndexError, KeyError, OSError, ...

  /** A call either returns a value or raises an exception. */
  datatype Completion<+T> = Returned(value: T) | Raised(exc: Exc)

  /** A value passed to or read back from the database driver. */
  datatype Value = VNone | VBool(b: bool) | VInt(i: int) | VStr(s: string)

  /** A row, read by column name as the modelled code reads it. */
  type Row = map<string, Value>

  /** The four shapes `execute_query` can return, one per flag. */
  datatype QueryResult =
    | Flag(b: bool)            // the literal `True` of the path without fetch flags
    | LastId(id: int)          // cursor.lastrowid
    | One(row: Option<Row>)    // cursor.fetchone()
    | All(rows: seq<Row>)      // cursor.fetchall()

  /** Truthiness of an optional string (a form field): present and non-empty. */
  predicate TruthyStr(s: Option<string>)
  {
    s.Some? && s.value != ""
  }

  /** Truthiness of a query result, as `if result:` and `not result` test it: a result that
      has a length is truthy exactly when that length is not zero; `True`, `False` and an id
      test as themselves. */
  function Truthy(r: QueryResult): (b: bool)
    ensures Len(r).Some? ==> (b <==> Len(r).value != 0)
    ensures Len(r).None? ==> (b <==> r == Flag(true) || (r.LastId? && r.id != 0))
  {
    match r
    case Flag(b) => b
    case LastId(id) => id != 0
    case One(row) => row.Some? && row.value != map[]
    case All(rows) => rows != []
  }

  /** `len(r)`; `None` where Python raises `TypeError` (a bool, an int or `None` has no length). */
  function Len(r: QueryResult): (n: Option<nat>)
    ensures n.Some? <==> r.All? || (r.One? && r.row.Some?)
    ensures r.All? ==> n == Some(|r.rows|)
  {
    match r
    case All(rows) => Some(|rows|)
    case One(row) => if row.Some? then Some(|row.value|) else None
    case _ => None
  }

  /** `r[0]`; `None` where Python raises (`TypeError` on a bool or an int, `IndexError` on an
      empty list, `KeyError` on a row read by position, `TypeError` on `None`). */
  function First(r: QueryResult): (row: Option<Row>)
    ensures row.Some? <==> r.All? && r.rows != []
    ensures row.Some? ==> row.value == r.rows[0]
  {
    if r.All? && r.rows != [] then Some(r.rows[0]) else None
  }

  /** The number of occurrences of `c` in `s` (`s.count(c)`). */
  function Occurrences<T(==)>(s: seq<T>, c: T): nat
  {
    if s == [] then 0 else (if s[0] == c then 1 else 0) + Occurrences(s[1..], c)
  }

  lemma {:induction false} OccurrencesAppend<T>(a: seq<T>, b: seq<T>, c: T)
    ensures Occurrences(a + b, c) == Occurrences(a, c) + Occurrences(b, c)
  {
    if a != [] {
      assert (a + b)[1..] == a[1..] + b;
      OccurrencesAppend(a[1..], b, c);
    } else {
      assert a + b == b;
    }
  }

  lemma {:induction false} OccurrencesAbsent<T>(s: seq<T>, c: T)
    requires c !in s
    ensures Occurrences(s, c) == 0
  {
    if s != [] {
      OccurrencesAbsent(s[1..], c);
    }
  }

  /** The total length of some strings. */
  function TotalLength(parts: seq<string>): nat
  {
    if parts == [] then 0 else |parts[0]| + TotalLength(parts[1..])
  }

  /** Python's `sep.join(parts)`: the parts in order with `sep` between each two of them. */
  function Join(sep: string, parts: seq<string>): (r: string)
    ensures parts == [] ==> r == ""
    ensures parts != [] ==> |r| == TotalLength(parts) + (|parts| - 1) * |sep|
    ensures parts != [] ==> r[..|parts[0]|] == parts[0]
  {
    if parts == [] then ""
    else if |parts| == 1 then parts[0]
    else parts[0] + sep + Join(sep, parts[1..])
  }
}
