/** The session routes: the `login_required` gate, the registration and login decision
    chains, and logout. Each chain is a sequence of guards with early exits; every
    database call, the password hash and its check, the clock and the folder creation
    are inputs. The Flask session is a map that each route returns updated. */
module Sessions {
  import opened Python
  import DatabaseCore

  /** The Flask session: what the routes store under a key (only ever under "user"). */
  type Session = map<string, Row>

  /** A submitted form: `request.form.get(key)` is `Get(form, key)`. */
  type Form = map<string, string>

  function Get(form: Form, key: string): Option<string>
  {
    if key in form then Some(form[key]) else None
  }

  /** The endpoints the routes redirect to (`index_route`, `login_route`) and the templates
      they render (`register.html`, `login.html`). */
  datatype Endpoint = Index | LoginRoute
  datatype Page = RegisterPage | LoginPage

  /** Where the response sends the browser. */
  datatype Target = ToEndpoint(endpoint: Endpoint) | Template(page: Page)

  /** The messages the routes flash; `Wording` gives each one's text. */
  datatype Message =
    | PleaseLogIn | AllFieldsRequired | PasswordsDoNotMatch | PasswordTooShort | AlreadyExists
    | RegistrationFailed | UnexpectedError | AccountCreated | CredentialsRequired
    | InvalidCredentials | LoginFailed | LoggedOut
    | WelcomeBack(username: Value)

  function Wording(m: Message): string
  {
    match m
    case PleaseLogIn => "Please log in first"
    case AllFieldsRequired => "All fields are required"
    case PasswordsDoNotMatch => "Passwords do not match"
    case PasswordTooShort => "Password must be at least 8 characters long"
    case AlreadyExists => "Username or email already exists"
    case RegistrationFailed => "An error occurred during registration"
    case UnexpectedError => "An unexpected error occurred"
    case AccountCreated => "Account created successfully"
    case CredentialsRequired => "Username and password are required"
    case InvalidCredentials => "Invalid username or password"
    case LoginFailed => "An error occurred during login"
    case LoggedOut => "Logged out successfully"
    case WelcomeBack(username) => "Welcome back, " + Display(username) + "!"
  }

  /** `str(v)` for the values a user name can hold. */
  function Display(v: Value): string
  {
    match v
    case VNone => "None"
    case VBool(b) => if b then "True" else "False"
    case VInt(i) => IntText(i)
    case VStr(s) => s
  }

  /** Decimal text of an integer, as `str(i)` writes it. */
  function IntText(i: int): string
    decreases if i < 0 then 1 - i else i
  {
    if i < 0 then "-" + IntText(-i)
    else if i < 10 then [Digit(i)]
    else IntText(i / 10) + [Digit(i % 10)]
  }

  function Digit(d: int): char
    requires 0 <= d < 10
  {
    "0123456789"[d]
  }

  /** The flash categories, `'error'` and `'success'`. */
  datatype Category = Failure | Success

  datatype Flash = Flash(message: Message, category: Category)

  /** What a route does: where it sends the browser, what it flashes, the session
      afterwards, and the write statements it hands to the database, in order. */
  datatype Outcome = Outcome(target: Target, flash: Option<Flash>, session: Session,
                             writes: seq<DatabaseCore.Statement>)

  /** A redirect to the index page that flashes an error and changes nothing. */
  function Reject(m: Message, session: Session): (o: Outcome)
    ensures o.target == ToEndpoint(Index) && o.session == session && o.writes == []
    ensures o.flash == Some(Flash(m, Failure))
  {
    Outcome(ToEndpoint(Index), Some(Flash(m, Failure)), session, [])
  }

  // ---------------------------------------------------------------------------
  // login_required
  // ---------------------------------------------------------------------------

  /** What the decorated view does: the wrapped view runs, or the browser is sent to log in. */
  datatype Gated<R> = Invoked(result: R) | Denied(flash: Flash, target: Target)

  /** `login_required(view)` called with the current session. */
  function LoginRequired<R>(session: Session, view: () -> R): (g: Gated<R>)
    ensures g.Invoked? <==> "user" in session
    ensures g.Invoked? ==> g.result == view()
    ensures g.Denied? ==> g == Denied(Flash(PleaseLogIn, Failure), ToEndpoint(LoginRoute))
  {
    if "user" !in session then Denied(Flash(PleaseLogIn, Failure), ToEndpoint(LoginRoute))
    else Invoked(view())
  }

  // ---------------------------------------------------------------------------
  // register
  // ---------------------------------------------------------------------------

  /** The four registration fields are present and non-empty. */
  predicate AllFieldsGiven(form: Form)
  {
    && TruthyStr(Get(form, "username")) && TruthyStr(Get(form, "email"))
    && TruthyStr(Get(form, "password")) && TruthyStr(Get(form, "password2"))
  }

  /** The message of an exception that reaches the outer handler of `register`. */
  function RegisterFailure(e: Exc): Message
  {
    if e.DatabaseError? then RegistrationFailed else UnexpectedError
  }

  const InsertSql: string := "INSERT INTO USER (username, email, password) VALUES (%s, %s, %s)"
  const TouchSql: string := "UPDATE USER SET last_login = CURRENT_TIMESTAMP WHERE id = %s"

  /** The INSERT `register` issues. */
  function InsertUser(username: string, email: string, storedPassword: string): DatabaseCore.Statement
  {
    DatabaseCore.Statement(InsertSql, [VStr(username), VStr(email), VStr(storedPassword)])
  }

  /** The form passes the three checks of `register`. */
  predicate ValidRegistration(form: Form)
  {
    AllFieldsGiven(form) && form["password"] == form["password2"] && |form["password"]| >= 8
  }

  /** The validation of `register`: the message of the first check that fails, in the code's
      order, or `None` when the form passes. */
  function RegistrationProblem(form: Form): (m: Option<Message>)
    ensures m.None? <==> ValidRegistration(form)
    ensures !AllFieldsGiven(form) ==> m == Some(AllFieldsRequired)
    ensures AllFieldsGiven(form) && form["password"] != form["password2"] ==> m == Some(PasswordsDoNotMatch)
    ensures AllFieldsGiven(form) && form["password"] == form["password2"] && |form["password"]| < 8 ==>
      m == Some(PasswordTooShort)
  {
    if !AllFieldsGiven(form) then Some(AllFieldsRequired)
    else if form["password"] != form["password2"] then Some(PasswordsDoNotMatch)
    else if |form["password"]| < 8 then Some(PasswordTooShort)
    else None
  }

  /** What `register` does with a valid form. `existing` is how the "user already exists"
      lookup completes, `hash` is `generate_password_hash`, `insert` how the INSERT completes
      and `created` how the lookup of the new user completes. */
  function CreateAccount(username: string, email: string, password: string, session: Session,
                         existing: Completion<QueryResult>, hash: string -> string,
                         insert: Completion<QueryResult>, created: Completion<QueryResult>): (o: Outcome)
    ensures existing.Raised? ==> o == Reject(RegisterFailure(existing.exc), session)
    // a truthy lookup blocks creation
    ensures existing.Returned? && Truthy(existing.value) ==> o == Reject(AlreadyExists, session)
    // the only write is the INSERT, and it stores the hash of the password
    ensures o.writes != [] ==> o.writes == [InsertUser(username, email, hash(password))]
    // the session changes only once the new user was read back
    ensures o.session != session ==>
      o.writes != [] && created.Returned? && First(created.value).Some? &&
      o.session == session["user" := First(created.value).value] &&
      o.flash == Some(Flash(AccountCreated, Success))
    // once the INSERT was issued, a failing INSERT or read-back is reported, the INSERT stays
    ensures existing.Returned? && !Truthy(existing.value) && insert.Raised? ==>
      o == Reject(RegisterFailure(insert.exc), session).(writes := [InsertUser(username, email, hash(password))])
    ensures existing.Returned? && !Truthy(existing.value) && insert.Returned? && created.Raised? ==>
      o == Reject(RegisterFailure(created.exc), session).(writes := [InsertUser(username, email, hash(password))])
    // `[0]` on anything but a non-empty list of rows raises, which ends in the generic error
    ensures existing.Returned? && !Truthy(existing.value) && insert.Returned? && created.Returned? &&
            First(created.value).None? ==>
      o == Reject(UnexpectedError, session).(writes := [InsertUser(username, email, hash(password))])
    // when every call succeeds, the new user is stored and logged in
    ensures existing.Returned? && !Truthy(existing.value) && insert.Returned? &&
            created.Returned? && First(created.value).Some? ==>
      o == Outcome(ToEndpoint(Index), Some(Flash(AccountCreated, Success)),
                   session["user" := First(created.value).value], [InsertUser(username, email, hash(password))])
  {
    match existing
    case Raised(e) => Reject(RegisterFailure(e), session)
    case Returned(found) =>
      if Truthy(found) then Reject(AlreadyExists, session)
      else
        var st := InsertUser(username, email, hash(password));
        match insert
        case Raised(e) => Reject(RegisterFailure(e), session).(writes := [st])
        case Returned(_) =>
          match created
          case Raised(e) => Reject(RegisterFailure(e), session).(writes := [st])
          case Returned(rows) =>
            // `[0]` on what the lookup returned
            var user := First(rows);
            if user.None? then Reject(UnexpectedError, session).(writes := [st])
            else Outcome(ToEndpoint(Index), Some(Flash(AccountCreated, Success)),
                         session["user" := user.value], [st])
  }

  /** `register()`: a GET renders the form; a POST is validated, then the account created. */
  function Register(isPost: bool, form: Form, session: Session, existing: Completion<QueryResult>,
                    hash: string -> string, insert: Completion<QueryResult>,
                    created: Completion<QueryResult>): (o: Outcome)
    ensures !isPost ==> o == Outcome(Template(RegisterPage), None, session, [])
    // the first failing check decides the outcome, and nothing reaches the database
    ensures isPost && !AllFieldsGiven(form) ==> o == Reject(AllFieldsRequired, session)
    ensures isPost && AllFieldsGiven(form) && form["password"] != form["password2"] ==>
      o == Reject(PasswordsDoNotMatch, session)
    ensures isPost && AllFieldsGiven(form) && form["password"] == form["password2"] &&
            |form["password"]| < 8 ==>
      o == Reject(PasswordTooShort, session)
    ensures isPost && ValidRegistration(form) ==>
      o == CreateAccount(form["username"], form["email"], form["password"], session, existing, hash, insert, created)
    ensures o.writes != [] ==>
      ValidRegistration(form) && o.writes == [InsertUser(form["username"], form["email"], hash(form["password"]))]
  {
    if !isPost then Outcome(Template(RegisterPage), None, session, [])
    else
      var problem := RegistrationProblem(form);
      if problem.Some? then Reject(problem.value, session)
      else CreateAccount(form["username"], form["email"], form["password"], session, existing, hash, insert, created)
  }

  /** A password that matches its confirmation passes validation exactly when it has at least
      eight characters: with eight or more, none of the three validation messages is given. */
  lemma PasswordLengthBoundary(form: Form, session: Session, existing: Completion<QueryResult>,
                               hash: string -> string, insert: Completion<QueryResult>,
                               created: Completion<QueryResult>)
    requires AllFieldsGiven(form) && form["password"] == form["password2"]
    ensures var o := Register(true, form, session, existing, hash, insert, created);
      (o == Reject(PasswordTooShort, session)) <==> |form["password"]| <= 7
  {
  }

  /** When a hash never returns its input, the stored password is never the plaintext. */
  lemma StoredPasswordNotPlaintext(isPost: bool, form: Form, session: Session, existing: Completion<QueryResult>,
                                   hash: string -> string, insert: Completion<QueryResult>,
                                   created: Completion<QueryResult>)
    requires forall p :: hash(p) != p
    ensures var o := Register(isPost, form, session, existing, hash, insert, created);
      forall k :: 0 <= k < |o.writes| ==> o.writes[k].params[2] != VStr(form["password"])
  {
  }

  // ---------------------------------------------------------------------------
  // login
  // ---------------------------------------------------------------------------

  /** The message of an exception that reaches the outer handler of `login`. */
  function LoginFailure(e: Exc): Message
  {
    if e.DatabaseError? then LoginFailed else UnexpectedError
  }

  /** The columns `login` needs in the user row. */
  predicate HasUserFields(user: Row)
  {
    "id" in user && "username" in user && "email" in user && "password" in user
  }

  /** The session record `login` builds from the user row once the password hash is popped. */
  function SessionRecord(user: Row, loginTime: string): (rec: Row)
    requires HasUserFields(user)
    ensures rec.Keys == {"id", "username", "email", "logged_in", "login_time"}
    ensures "password" !in rec
    ensures rec["id"] == user["id"] && rec["username"] == user["username"] && rec["email"] == user["email"]
    ensures rec["logged_in"] == VBool(true) && rec["login_time"] == VStr(loginTime)
  {
    var u := user - {"password"};
    map["id" := u["id"], "username" := u["username"], "email" := u["email"],
        "logged_in" := VBool(true), "login_time" := VStr(loginTime)]
  }

  /** The UPDATE of the last login time. */
  function TouchLastLogin(id: Value): DatabaseCore.Statement
  {
    DatabaseCore.Statement(TouchSql, [id])
  }

  /** The inner `try` of `login`, for a user row with every needed field whose password
      checked: the last-login UPDATE, then the session record, then the user's folder.
      `touch` is how the UPDATE completes, `now` the login time and `folderError` what
      creating the folder raised, if anything. */
  function StartSession(user: Row, session: Session, touch: Completion<QueryResult>,
                        now: string, folderError: Option<Exc>): (o: Outcome)
    requires HasUserFields(user)
    ensures o.target == ToEndpoint(Index) && o.writes == [TouchLastLogin(user["id"])]
    // a failed UPDATE leaves the user logged out
    ensures touch.Raised? ==> o.session == session && o.flash == Some(Flash(LoginFailed, Failure))
    // otherwise the session holds the record, even if the folder cannot be created
    ensures touch.Returned? ==> o.session == session["user" := SessionRecord(user, now)]
    ensures touch.Returned? && folderError.Some? ==> o.flash == Some(Flash(LoginFailed, Failure))
    ensures touch.Returned? && folderError.None? ==> o.flash == Some(Flash(WelcomeBack(user["username"]), Success))
  {
    var st := TouchLastLogin(user["id"]);
    match touch
    case Raised(_) => Reject(LoginFailed, session).(writes := [st])
    case Returned(_) =>
      var session' := session["user" := SessionRecord(user, now)];
      if folderError.Some? then Reject(LoginFailed, session').(writes := [st])
      else Outcome(ToEndpoint(Index), Some(Flash(WelcomeBack(user["username"]), Success)), session', [st])
  }

  /** The checks of `login` once both fields are given: `lookup` is how the user lookup
      completes and `verify` is `check_password_hash`. */
  function Authenticate(password: string, session: Session, lookup: Completion<QueryResult>,
                        verify: (Value, string) -> bool, touch: Completion<QueryResult>,
                        now: string, folderError: Option<Exc>): (o: Outcome)
    ensures lookup.Raised? ==> o == Reject(LoginFailure(lookup.exc), session)
    // no row: the same answer as a wrong password
    ensures lookup.Returned? && (!Truthy(lookup.value) || Len(lookup.value) == Some(0)) ==>
      o == Reject(InvalidCredentials, session)
    // a truthy result without a length, such as `True`, makes `len` raise TypeError
    ensures lookup.Returned? && Truthy(lookup.value) && Len(lookup.value).None? ==>
      o == Reject(UnexpectedError, session)
    // a result with a non-zero length whose `[0]` raises (a fetched row read by position)
    ensures lookup.Returned? && Truthy(lookup.value) && Len(lookup.value).Some? &&
            First(lookup.value).None? ==>
      o == Reject(UnexpectedError, session)
    // a first row decides by its fields and its password hash
    ensures lookup.Returned? && First(lookup.value).Some? ==>
      var user := First(lookup.value).value;
      o == (if !HasUserFields(user) then Reject(LoginFailed, session)
            else if !verify(user["password"], password) then Reject(InvalidCredentials, session)
            else StartSession(user, session, touch, now, folderError))
    // the session only ever receives the record of a user whose password checked
    ensures o.session != session ==>
      && lookup.Returned? && First(lookup.value).Some?
      && var user := First(lookup.value).value;
      && HasUserFields(user) && verify(user["password"], password)
      && touch.Returned?
      && o.session == session["user" := SessionRecord(user, now)]
      && o.writes == [TouchLastLogin(user["id"])]
  {
    match lookup
    case Raised(e) => Reject(LoginFailure(e), session)
    case Returned(result) =>
      if !Truthy(result) then Reject(InvalidCredentials, session)
      else
        // `len(result) == 0`
        var n := Len(result);
        if n.None? then Reject(UnexpectedError, session)
        else if n.value == 0 then Reject(InvalidCredentials, session)
        else
          // `result[0]`
          var first := First(result);
          if first.None? then Reject(UnexpectedError, session)
          else
            var user := first.value;
            if !HasUserFields(user) then Reject(LoginFailed, session)
            else if !verify(user["password"], password) then Reject(InvalidCredentials, session)
            else StartSession(user, session, touch, now, folderError)
  }

  /** `login()`: a GET renders the form; a POST needs both fields, then authenticates. */
  function Login(isPost: bool, form: Form, session: Session, lookup: Completion<QueryResult>,
                 verify: (Value, string) -> bool, touch: Completion<QueryResult>,
                 now: string, folderError: Option<Exc>): (o: Outcome)
    ensures !isPost ==> o == Outcome(Template(LoginPage), None, session, [])
    ensures isPost && !(TruthyStr(Get(form, "username")) && TruthyStr(Get(form, "password"))) ==>
      o == Reject(CredentialsRequired, session)
    ensures isPost && TruthyStr(Get(form, "username")) && TruthyStr(Get(form, "password")) ==>
      o == Authenticate(form["password"], session, lookup, verify, touch, now, folderError)
    ensures o.session != session ==>
      && lookup.Returned? && First(lookup.value).Some?
      && var user := First(lookup.value).value;
      && HasUserFields(user) && verify(user["password"], form["password"])
      && touch.Returned?
      && o.session == session["user" := SessionRecord(user, now)]
  {
    if !isPost then Outcome(Template(LoginPage), None, session, [])
    else
      var username, password := Get(form, "username"), Get(form, "password");
      if !(TruthyStr(username) && TruthyStr(password)) then Reject(CredentialsRequired, session)
      else Authenticate(password.value, session, lookup, verify, touch, now, folderError)
  }

  /** An unknown user and a wrong password look the same to the caller: the same message,
      and no change to the session. */
  lemma LoginHidesWhichCheckFailed(form: Form, session: Session, unknown: QueryResult, found: Row,
                                   verify: (Value, string) -> bool, touch: Completion<QueryResult>,
                                   now: string, folderError: Option<Exc>)
    requires TruthyStr(Get(form, "username")) && TruthyStr(Get(form, "password"))
    requires unknown == All([]) || unknown == One(None) || unknown == Flag(false)
    requires HasUserFields(found) && !verify(found["password"], form["password"])
    ensures Login(true, form, session, Returned(unknown), verify, touch, now, folderError) ==
            Reject(InvalidCredentials, session)
    ensures Login(true, form, session, Returned(All([found])), verify, touch, now, folderError) ==
            Reject(InvalidCredentials, session)
  {
  }

  /** If creating the folder fails, the session was already set: the user is logged in even
      though the page reports an error. */
  lemma LoginFolderFailureKeepsSession(form: Form, session: Session, rows: seq<Row>,
                                       verify: (Value, string) -> bool, now: string,
                                       updated: QueryResult, e: Exc)
    requires TruthyStr(Get(form, "username")) && TruthyStr(Get(form, "password"))
    requires rows != [] && HasUserFields(rows[0]) && verify(rows[0]["password"], form["password"])
    ensures var o := Login(true, form, session, Returned(All(rows)), verify, Returned(updated), now, Some(e));
      && o.flash == Some(Flash(LoginFailed, Failure))
      && o.session == session["user" := SessionRecord(rows[0], now)]
  {
  }

  // ---------------------------------------------------------------------------
  // logout
  // ---------------------------------------------------------------------------

  /** `logout()`: the user entry leaves the session, nothing else does. */
  function Logout(session: Session): (o: Outcome)
    ensures "user" !in o.session
    ensures forall k :: k != "user" ==> (k in o.session <==> k in session)
    ensures forall k :: k in o.session ==> o.session[k] == session[k]
    ensures o.flash == Some(Flash(LoggedOut, Success))
    ensures o.target == ToEndpoint(Index) && o.writes == []
  {
    Outcome(ToEndpoint(Index), Some(Flash(LoggedOut, Success)),
            session - {"user"}, [])
  }

  /** After logout, every view behind login_required redirects to the login page. */
  lemma LogoutLocksViews<R>(session: Session, view: () -> R)
    ensures LoginRequired(Logout(session).session, view).Denied?
  {
  }

  // ---------------------------------------------------------------------------
  // The routes as wired: lookups through execute_query without fetch flags
  // ---------------------------------------------------------------------------

  /** What the lookups of `register` and `login` receive as the code calls them: no fetch
      flag, so `execute_query` returns `True` whatever rows the query found. */
  function UnflaggedLookup(rows: seq<Row>, lastRowId: int): (r: QueryResult)
    ensures r == Flag(true)
  {
    DatabaseCore.QueryReturn(false, false, false, rows, lastRowId)
  }

  /** `register` as the code calls it: both lookups without a fetch flag. The "already
      exists" check always sees `True`, so no user is ever inserted and nobody is logged in. */
  function RegisterAsWired(isPost: bool, form: Form, session: Session, rows: seq<Row>, lastRowId: int,
                           hash: string -> string, insert: Completion<QueryResult>,
                           createdRows: seq<Row>): (o: Outcome)
    ensures o.writes == [] && o.session == session
    ensures isPost && AllFieldsGiven(form) && form["password"] == form["password2"] && |form["password"]| >= 8 ==>
      o == Reject(AlreadyExists, session)
  {
    Register(isPost, form, session, Returned(UnflaggedLookup(rows, lastRowId)), hash, insert,
             Returned(UnflaggedLookup(createdRows, lastRowId)))
  }

  /** `register` with only the "already exists" lookup asking for its rows: the read-back of
      the new user still has no fetch flag, so `True[0]` raises `TypeError` after the INSERT.
      A valid registration of a fresh name stores the user, but the page reports the generic
      error and nobody is logged in. */
  function RegisterReadBackAsWired(isPost: bool, form: Form, session: Session, existingRows: seq<Row>,
                                   hash: string -> string, insert: Completion<QueryResult>,
                                   createdRows: seq<Row>, lastRowId: int): (o: Outcome)
    ensures o.session == session
    ensures isPost && ValidRegistration(form) && existingRows == [] && insert.Returned? ==>
      o == Reject(UnexpectedError, session).(writes := [InsertUser(form["username"], form["email"], hash(form["password"]))])
  {
    Register(isPost, form, session, Returned(DatabaseCore.QueryReturn(false, false, true, existingRows, lastRowId)),
             hash, insert, Returned(UnflaggedLookup(createdRows, lastRowId)))
  }

  /** `register` with both lookups asking for their rows (`fetch_all=True`): a valid
      registration of a name and email nobody holds inserts the user with the hashed password
      and puts the row read back into the session; a taken name or email inserts nothing. */
  function RegisterFetchingRows(isPost: bool, form: Form, session: Session, existingRows: seq<Row>,
                                hash: string -> string, insert: Completion<QueryResult>,
                                createdRows: seq<Row>, lastRowId: int): (o: Outcome)
    ensures existingRows != [] ==> o.writes == [] && o.session == session
    ensures isPost && AllFieldsGiven(form) && form["password"] == form["password2"] && |form["password"]| >= 8 &&
            existingRows == [] && insert.Returned? && createdRows != [] ==>
      && o.writes == [InsertUser(form["username"], form["email"], hash(form["password"]))]
      && o.session == session["user" := createdRows[0]]
      && o.flash == Some(Flash(AccountCreated, Success))
  {
    Register(isPost, form, session, Returned(DatabaseCore.QueryReturn(false, false, true, existingRows, lastRowId)),
             hash, insert, Returned(DatabaseCore.QueryReturn(false, false, true, createdRows, lastRowId)))
  }

  /** `login` as the code calls it: the lookup without a fetch flag returns `True`,
      `len(True)` raises `TypeError`, and every attempt with both fields filled in ends in the
      generic error: nobody can log in. */
  function LoginAsWired(isPost: bool, form: Form, session: Session, rows: seq<Row>, lastRowId: int,
                        verify: (Value, string) -> bool, touch: Completion<QueryResult>,
                        now: string, folderError: Option<Exc>): (o: Outcome)
    ensures o.writes == [] && o.session == session
    ensures isPost && TruthyStr(Get(form, "username")) && TruthyStr(Get(form, "password")) ==>
      o == Reject(UnexpectedError, session)
  {
    Login(isPost, form, session, Returned(UnflaggedLookup(rows, lastRowId)), verify, touch, now, folderError)
  }

  /** `login` with the lookup asking for its rows (`fetch_all=True`): an unknown name is
      turned away, and a stored user whose password checks is logged in with a session
      record free of the password hash. */
  function LoginFetchingRows(isPost: bool, form: Form, session: Session, rows: seq<Row>, lastRowId: int,
                             verify: (Value, string) -> bool, touch: Completion<QueryResult>,
                             now: string, folderError: Option<Exc>): (o: Outcome)
    ensures isPost && TruthyStr(Get(form, "username")) && TruthyStr(Get(form, "password")) && rows == [] ==>
      o == Reject(InvalidCredentials, session)
    ensures isPost && TruthyStr(Get(form, "username")) && TruthyStr(Get(form, "password")) &&
            rows != [] && HasUserFields(rows[0]) && verify(rows[0]["password"], form["password"]) &&
            touch.Returned? ==>
      && o.session == session["user" := SessionRecord(rows[0], now)]
      && "password" !in o.session["user"]
      && o.writes == [TouchLastLogin(rows[0]["id"])]
    ensures folderError.None? && o.session != session ==>
      rows != [] && HasUserFields(rows[0]) && o.flash == Some(Flash(WelcomeBack(rows[0]["username"]), Success))
  {
    Login(isPost, form, session, Returned(DatabaseCore.QueryReturn(false, false, true, rows, lastRowId)),
          verify, touch, now, folderError)
  }
}
