/** Schema bootstrap and download logging: `init_db` splits the schema text on `;`,
    strips each fragment, skips the blank ones and executes the rest in order,
    stopping at the first failure; `register_download` logs one attempt and turns a
    `DatabaseError` into `False`. Reading the schema file and each `execute_query`
    call are inputs. */
module DatabaseSetup {
  import opened Python
  import DatabaseCore

  // ---------------------------------------------------------------------------
  // str.split(';')
  // ---------------------------------------------------------------------------

  /** Python's `s.split(';')`: the maximal `;`-free pieces, as many as there are
      separators plus one, empty pieces included. */
  function Split(s: string): (parts: seq<string>)
    ensures |parts| >= 1
    ensures forall i :: 0 <= i < |parts| ==> ';' !in parts[i]
  {
    if s == [] then [""]
    else
      var rest := Split(s[1..]);
      if s[0] == ';' then [""] + rest
      else [[s[0]] + rest[0]] + rest[1..]
  }

  /** Splitting loses nothing: joining the pieces back gives the schema text. */
  lemma {:induction false} SplitJoin(s: string)
    ensures Join(";", Split(s)) == s
  {
    if s != [] {
      var rest := Split(s[1..]);
      SplitJoin(s[1..]);
      JoinCons(rest);
      if s[0] == ';' {
        JoinCons([""] + rest);
        assert ([""] + rest)[1..] == rest;
      } else {
        var head := [s[0]] + rest[0];
        JoinCons([head] + rest[1..]);
        assert ([head] + rest[1..])[1..] == rest[1..];
      }
    }
  }

  /** `';'.join` of at least one piece: the first piece, then `;` and the join of the rest. */
  lemma JoinCons(parts: seq<string>)
    requires |parts| >= 1
    ensures Join(";", parts) == if |parts| == 1 then parts[0] else parts[0] + ";" + Join(";", parts[1..])
  {
  }

  /** There is one more piece than there are separators. */
  lemma {:induction false} SplitCount(s: string)
    ensures |Split(s)| == Occurrences(s, ';') + 1
  {
    if s != [] {
      SplitCount(s[1..]);
    }
  }

  // ---------------------------------------------------------------------------
  // str.strip()
  // ---------------------------------------------------------------------------

  /** The characters for which Python's `str.isspace()` holds, which `str.strip()` removes. */
  const PythonWhitespace: set<char> := {
    ' ', '\t', '\n', '\r', '\U{0B}', '\U{0C}', '\U{1C}', '\U{1D}', '\U{1E}', '\U{1F}',
    '\U{85}', '\U{A0}', '\U{1680}', '\U{2000}', '\U{2001}', '\U{2002}', '\U{2003}', '\U{2004}',
    '\U{2005}', '\U{2006}', '\U{2007}', '\U{2008}', '\U{2009}', '\U{200A}', '\U{2028}',
    '\U{2029}', '\U{202F}', '\U{205F}', '\U{3000}'
  }

  predicate IsSpace(c: char)
  {
    c in PythonWhitespace
  }

  /** The number of whitespace characters `s` starts with. */
  function Lead(s: string): (n: nat)
    ensures n <= |s|
    ensures forall k :: 0 <= k < n ==> IsSpace(s[k])
    ensures n < |s| ==> !IsSpace(s[n])
  {
    if s != [] && IsSpace(s[0]) then 1 + Lead(s[1..]) else 0
  }

  /** Python's `s.strip()`: `s` without its leading and trailing whitespace. */
  function Strip(s: string): (t: string)
    ensures |t| <= |s|
    ensures t != [] ==> !IsSpace(t[0]) && !IsSpace(t[|t| - 1])
    decreases |s|
  {
    if s == [] then s
    else if IsSpace(s[0]) then Strip(s[1..])
    else if IsSpace(s[|s| - 1]) then Strip(s[..|s| - 1])
    else s
  }

  /** What strip keeps: the slice of `s` after its leading whitespace, followed only by
      whitespace, and neither starting nor ending with whitespace. */
  lemma {:induction false} StripSlice(s: string)
    decreases |s|, 1
    ensures Lead(s) + |Strip(s)| <= |s|
    ensures Strip(s) == s[Lead(s)..Lead(s) + |Strip(s)|]
    ensures forall k :: Lead(s) + |Strip(s)| <= k < |s| ==> IsSpace(s[k])
    ensures Strip(s) == [] || (!IsSpace(Strip(s)[0]) && !IsSpace(Strip(s)[|Strip(s)| - 1]))
  {
    if s == [] {
    } else if IsSpace(s[0]) {
      StripSlice(s[1..]);
      forall k | Lead(s) + |Strip(s)| <= k < |s| ensures IsSpace(s[k]) {
        assert s[k] == s[1..][k - 1];
      }
    } else if IsSpace(s[|s| - 1]) {
      StripSliceTrailing(s);
    }
  }

  /** StripSlice for a text that starts with a non-space and ends with a space. */
  lemma {:induction false} StripSliceTrailing(s: string)
    requires s != [] && !IsSpace(s[0]) && IsSpace(s[|s| - 1])
    decreases |s|, 0
    ensures Lead(s) + |Strip(s)| <= |s|
    ensures Strip(s) == s[Lead(s)..Lead(s) + |Strip(s)|]
    ensures forall k :: Lead(s) + |Strip(s)| <= k < |s| ==> IsSpace(s[k])
    ensures Strip(s) == [] || (!IsSpace(Strip(s)[0]) && !IsSpace(Strip(s)[|Strip(s)| - 1]))
  {
    var t := s[..|s| - 1];
    StripSlice(t);
    assert Lead(s) == 0 && Lead(t) == 0;
    assert Strip(s) == Strip(t);
    assert t[..|Strip(t)|] == s[..|Strip(t)|] by {
      assert forall i :: 0 <= i < |Strip(t)| ==> t[i] == s[i];
    }
    forall k | |Strip(s)| <= k < |s| ensures IsSpace(s[k]) {
      if k < |s| - 1 {
        assert s[k] == t[k];
      }
    }
  }

  /** A fragment strips to nothing exactly when it is all whitespace. */
  lemma StripBlank(s: string)
    ensures Strip(s) == [] <==> forall k :: 0 <= k < |s| ==> IsSpace(s[k])
  {
    StripSlice(s);
    if Strip(s) != [] {
      assert s[Lead(s)] == Strip(s)[0];
    }
  }

  /** Stripping twice is stripping once. */
  lemma StripIdempotent(s: string)
    ensures Strip(Strip(s)) == Strip(s)
  {
    StripSlice(s);
  }

  // ---------------------------------------------------------------------------
  // init_db
  // ---------------------------------------------------------------------------

  /** The commands `init_db` executes for the pieces `parts`, in their order: each piece
      stripped, the blank ones left out. */
  function Commands(parts: seq<string>): (cmds: seq<string>)
    ensures |cmds| <= |parts|
  {
    if parts == [] then []
    else (if Strip(parts[0]) != [] then [Strip(parts[0])] else []) + Commands(parts[1..])
  }

  /** The commands of two runs of pieces, one after the other. */
  lemma {:induction false} CommandsAppend(a: seq<string>, b: seq<string>)
    ensures Commands(a + b) == Commands(a) + Commands(b)
  {
    if a == [] {
      assert a + b == b;
    } else {
      assert (a + b)[1..] == a[1..] + b;
      CommandsAppend(a[1..], b);
    }
  }

  /** One more piece: its command, if any, follows the commands of the pieces before it. */
  lemma CommandsStep(parts: seq<string>, k: nat)
    requires k < |parts|
    ensures Strip(parts[k]) != [] ==> Commands(parts[k..]) == [Strip(parts[k])] + Commands(parts[k + 1..])
    ensures Strip(parts[k]) == [] ==> Commands(parts[k..]) == Commands(parts[k + 1..])
  {
    assert parts[k..][1..] == parts[k + 1..];
  }

  /** Every command `init_db` executes is non-blank, already stripped, and free of `;`. */
  lemma {:induction false} CommandsAreClean(parts: seq<string>)
    requires forall i :: 0 <= i < |parts| ==> ';' !in parts[i]
    ensures forall c :: c in Commands(parts) ==> c != [] && Strip(c) == c && ';' !in c
  {
    if parts != [] {
      CommandsAreClean(parts[1..]);
      StripIdempotent(parts[0]);
      StripKeepsAbsent(parts[0], ';');
    }
  }

  /** Stripping only removes characters. */
  lemma StripKeepsAbsent(s: string, c: char)
    requires c !in s
    ensures c !in Strip(s)
  {
    var r := Strip(s);
    StripSlice(s);
    forall k | 0 <= k < |r| ensures r[k] != c {
      assert r[k] == s[Lead(s) + k];
    }
  }

  /** A piece that is blank after stripping contributes no command. */
  lemma {:induction false} BlankPiecesSkipped(parts: seq<string>)
    ensures |Commands(parts)| == |parts| - Blanks(parts)
  {
    if parts != [] {
      BlankPiecesSkipped(parts[1..]);
    }
  }

  /** The number of pieces that are blank after stripping. */
  function Blanks(parts: seq<string>): nat
  {
    if parts == [] then 0 else (if Strip(parts[0]) == [] then 1 else 0) + Blanks(parts[1..])
  }

  /** The `for` loop of `init_db` over the pieces: `outcomes[i]` tells whether the
      i-th command handed to `execute_query` succeeded. `executed` lists the commands run in
      order; `ok` is false when one failed, which stops the loop. */
  method ExecuteCommands(pieces: seq<string>, outcomes: seq<bool>) returns (ok: bool, ghost executed: seq<string>)
    requires |Commands(pieces)| <= |outcomes|
    // the commands run are, in order, a prefix of the stripped non-blank pieces
    ensures executed <= Commands(pieces)
    // only the last command run may have failed
    ensures forall i :: 0 <= i < |executed| - 1 ==> outcomes[i]
    // success exactly when every non-blank piece ran without error
    ensures ok <==> executed == Commands(pieces) && forall i :: 0 <= i < |executed| ==> outcomes[i]
    // on a failing command nothing after it runs
    ensures !ok ==> |executed| > 0 && !outcomes[|executed| - 1]
    // so the result depends only on the outcomes of the first |Commands(pieces)| calls
    ensures ok <==> forall i :: 0 <= i < |Commands(pieces)| ==> outcomes[i]
  {
    executed := [];
    ghost var all := Commands(pieces);
    var n := 0;
    var k := 0;
    while k < |pieces|
      invariant 0 <= k <= |pieces|
      invariant all == executed + Commands(pieces[k..]) && n == |executed|
      invariant executed <= all
      invariant forall i :: 0 <= i < n ==> outcomes[i]
    {
      var command := Strip(pieces[k]);
      CommandsStep(pieces, k);
      if command != [] {
        assert all == (executed + [command]) + Commands(pieces[k + 1..]);
        executed := executed + [command];
        var success := outcomes[n];
        n := n + 1;
        if !success {
          FailedCommand(all, outcomes, n - 1);
          return false, executed;
        }
      }
      k := k + 1;
    }
    assert pieces[k..] == [] && executed == all;
    return true, executed;
  }

  /** One failed call among the first `|cmds|` means not every command succeeded. */
  lemma FailedCommand(cmds: seq<string>, outcomes: seq<bool>, k: nat)
    requires k < |cmds| <= |outcomes| && !outcomes[k]
    ensures !forall i :: 0 <= i < |cmds| ==> outcomes[i]
  {
  }

  /** `init_db()`. `schema` is the text of schema.sql, `None` when opening or reading it
      raised; every exception ends in `False`. */
  method InitDb(schema: Option<string>, outcomes: seq<bool>) returns (ok: bool, ghost executed: seq<string>)
    requires schema.Some? ==> |Commands(Split(schema.value))| <= |outcomes|
    ensures schema.None? ==> !ok && executed == []
    ensures schema.Some? ==> executed <= Commands(Split(schema.value))
    ensures forall i :: 0 <= i < |executed| - 1 ==> outcomes[i]
    ensures ok <==> schema.Some? && executed == Commands(Split(schema.value)) &&
                    forall i :: 0 <= i < |executed| ==> outcomes[i]
    ensures schema.Some? && !ok ==> |executed| > 0 && !outcomes[|executed| - 1]
    ensures ok <==> schema.Some? && forall i :: 0 <= i < |Commands(Split(schema.value))| ==> outcomes[i]
  {
    if schema.None? {
      return false, [];
    }
    ok, executed := ExecuteCommands(Split(schema.value), outcomes);
  }

  // ---------------------------------------------------------------------------
  // register_download
  // ---------------------------------------------------------------------------

  /** The stored-procedure call of `register_download`. */
  const CallRegisterSql: string := "CALL register_download(%s, %s, %s, %s, %s)"

  /** What `register_download` does: the statement it hands to `execute_query` and how it
      completes. */
  datatype Logged = Logged(issued: DatabaseCore.Statement, outcome: Completion<bool>)

  /** `register_download(user_id, url, filename, status='success', error_message=None)`;
      `call` is how the `execute_query` call completes. */
  function RegisterDownload(call: Completion<QueryResult>, userId: int, url: string, filename: string,
                            status: string := "success", errorMessage: Option<string> := None): (r: Logged)
    ensures r.issued.sql == CallRegisterSql
    ensures r.issued.params ==
      [VInt(userId), VStr(url), VStr(filename), VStr(status),
       if errorMessage.Some? then VStr(errorMessage.value) else VNone]
    // True when the call returns, False instead of a DatabaseError, anything else propagates
    ensures r.outcome == Returned(true) <==> call.Returned?
    ensures r.outcome == Returned(false) <==> call.Raised? && call.exc.DatabaseError?
    ensures r.outcome.Raised? ==> call.Raised? && !call.exc.DatabaseError? && r.outcome.exc == call.exc
  {
    var st := DatabaseCore.Statement(CallRegisterSql,
      [VInt(userId), VStr(url), VStr(filename), VStr(status),
       if errorMessage.Some? then VStr(errorMessage.value) else VNone]);
    match call
    case Returned(_) => Logged(st, Returned(true))
    case Raised(e) => Logged(st, if e.DatabaseError? then Returned(false) else Raised(e))
  }

  /** Left at their defaults, status and error_message record a success without a message;
      a DatabaseError never escapes. */
  lemma RegisterDownloadDefaults(call: Completion<QueryResult>, userId: int, url: string, filename: string)
    ensures RegisterDownload(call, userId, url, filename).issued.params[3] == VStr("success")
    ensures RegisterDownload(call, userId, url, filename).issued.params[4] == VNone
    ensures !(RegisterDownload(call, userId, url, filename).outcome.Raised? &&
              RegisterDownload(call, userId, url, filename).outcome.exc.DatabaseError?)
  {
  }
}
