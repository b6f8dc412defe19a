# Downloader, modelled in Dafny

Downloader is a small Flask web application. It downloads songs with the external `spotdl` and
`yt-dlp` tools. Users register and log in, and a MySQL database keeps users and download history.
This project models the application's decision logic and proves what that logic promises:

- `python.dfy` (module `Python`): the Python notions the code relies on. It holds optional values,
  the exceptions the code tells apart, how a call completes (a value or an exception), driver
  values and rows, and the truthiness, `len()` and `[0]` of the four things `execute_query` returns.
  It also holds `str.count` and `str.join`, which both the UPDATE text and the schema split use.
- `database_core.dfy` (module `DatabaseCore`) models `database/core.py`:
  - the `retry_on_error` decorator, a loop over the successive outcomes of the wrapped call;
  - the `DatabaseManager` singleton, as two classes: the class object with its `_instance` and
    pool, and the instance with its `_initialized` flag;
  - what `execute_query` returns for each combination of its flags;
  - the UPDATE statement that `update_user` builds;
  - the two DELETE statements of `delete_download_history`.
- `database_setup.dfy` (module `DatabaseSetup`) models `database/setup.py`. `init_db` splits the
  schema on `;`, strips each piece and executes the non-blank ones, stopping at the first failure.
  `register_download` logs a download through a stored procedure.
- `sessions.dfy` (module `Sessions`) models `routes/sessions.py`: the `login_required` gate and the
  guard chains of `register`, `login` and `logout`. The Flask session is a map that each route
  returns updated. Each route also returns the write statements it issued.
- `download.dfy` (module `Download`) models `routes/download.py`: the two download endpoints and the
  selection of the first `.mp3` file.

The database driver, password hashing, the clock, the filesystem and the downloader processes are
never called. Each one is a parameter: how the call completed, or a function value.

## Model

| member | source | states |
|---|---|---|
| `Python.Len` | routes/sessions.py:103 | `len()` of a query result is defined exactly for a list of rows and for a fetched row; on a list it is the number of rows; on `True`, an id or `None` it raises |
| `Python.Truthy` | routes/sessions.py:52 | `if existing_user:` and `not result` (routes/sessions.py:103): a result with a length is truthy exactly when its length is not zero; `True` is truthy, `False` is not, and an id is truthy when it is not 0 |
| `Python.First` | routes/sessions.py:107 | `result[0]` yields a row exactly when the result is a non-empty list of rows, and then it is the first row |
| `DatabaseCore.RetryOnError` | database/core.py:36-53 | with `max_retries <= 0` the function is never called and `None` comes back; otherwise it is called 1 to `max_retries` times; only a driver `Error` leads to another call; the first success is returned unchanged; any other exception propagates as it is; a driver `Error` on the last allowed call becomes `DatabaseError("Max retries reached: ...")`; exactly one sleep separates consecutive calls; the loop falls through to `return None` exactly when nothing was tried (a wrapped function may itself return `None`, which the model keeps apart as a returned value), and any other result is one of the allowed calls' own results or that wrapped error; every decorated method of `DatabaseManager` uses the default `max_retries = 3`, which is the `maxRetries` parameter here |
| `DatabaseCore.InterleavedAlternates` | database/core.py:41-50 | the call/sleep trace of the retry loop alternates, starting and ending with a call |
| `DatabaseCore.InterleavedCounts` | database/core.py:41-50 | `n` calls of the retry loop come with exactly `n - 1` sleeps |
| `DatabaseCore.DatabaseManager.constructor` | database/core.py:58 | a new instance reads `_initialized` as false |
| `DatabaseCore.ManagerClass.constructor` | database/core.py:55-58 | the class starts without an instance and without a pool |
| `DatabaseCore.ManagerClass.New` | database/core.py:60-63 | `__new__` creates the instance on first use and afterwards always returns that same instance |
| `DatabaseCore.ManagerClass.Init` | database/core.py:65-68 | `__init__` runs `_setup_pool` only on an uninitialized instance; the instance becomes initialized only if the setup succeeds; a setup exception propagates |
| `DatabaseCore.ManagerClass.Construct` | database/core.py:55-68 | `DatabaseManager()` always yields the one instance; once it is initialized no setup runs again; a successful setup happens at most once; a failing setup raises its own exception out of the constructor |
| `DatabaseCore.ImportTimeConstruction` | database/core.py:291 | the four module-level `db = DatabaseManager()` statements obtain one and the same instance, and the pool is set up once |
| `DatabaseCore.QueryReturn` | database/core.py:134-140 | `return_last_id` wins over `fetch_one`, which wins over `fetch_all`; without any flag the result is the constant `True`, which is truthy and has no `len()` |
| `DatabaseCore.UpdateUser` | database/core.py:203-230 | nothing is issued and `False` is returned exactly when no field was given; otherwise the result is whatever the `execute_query` call returns or raises, and the statement is `UPDATE USER SET <clauses> WHERE id = %s`, with one clause per given field and the parameters in the same order followed by the user id |
| `DatabaseCore.AddColumn` | database/core.py:209-223 | one `if ... is not None` step: the clauses, parameters and given columns afterwards are those of the columns seen so far plus this one, which is added exactly when its argument was given |
| `DatabaseCore.GivenSnoc` | database/core.py:209-223 | looking at one more column adds it at the end exactly when its argument was given |
| `DatabaseCore.GivenMembers` | database/core.py:208-222 | a column gets a SET clause exactly when its argument is not `None` |
| `DatabaseCore.GivenKeepsOrder` | database/core.py:208-222 | the clauses keep the fixed column order |
| `DatabaseCore.UpdateColumns` | database/core.py:208-225 | the clauses of `update_user` follow the order username, email, password, is_active; a column appears exactly when given; there are none exactly when all four arguments are `None` |
| `DatabaseCore.UpdatePlaceholdersMatchParams` | database/core.py:227-229 | the UPDATE text has exactly as many `%s` placeholders as there are parameters |
| `Python.Join` | database/core.py:228 | `sep.join(parts)` of no parts is empty; otherwise it starts with the first part and its length is the parts' total length plus one separator between each two parts |
| `DatabaseCore.JoinedPlaceholders` | database/core.py:227 | joining the SET clauses with `, ` keeps one placeholder per clause |
| `DatabaseCore.DeleteDownloadHistory` | database/core.py:280-288 | a truthy `download_id` deletes by user and id with parameters `(user_id, download_id)`; otherwise the statement deletes by user only, with `(user_id,)`; the result is whatever the `execute_query` call returns or raises |
| `DatabaseCore.DeleteScope` | database/core.py:283-288 | a record is removed exactly when it belongs to the user and, for a truthy id, carries that id; `download_id = 0` behaves like `None` and removes the whole history |
| `DatabaseSetup.Split` | database/setup.py:19 | `split(';')` yields at least one piece, and no piece contains `;` |
| `DatabaseSetup.SplitJoin` | database/setup.py:19 | joining the pieces with `;` gives back the schema text |
| `DatabaseSetup.SplitCount` | database/setup.py:19 | there is one more piece than there are `;` characters |
| `DatabaseSetup.Strip` | database/setup.py:23 | `strip()` never lengthens a piece, and a non-empty result neither starts nor ends with whitespace |
| `DatabaseSetup.StripSlice` | database/setup.py:23 | `strip()` keeps a contiguous slice of the piece: only whitespace precedes and follows it, and it neither starts nor ends with whitespace |
| `DatabaseSetup.StripBlank` | database/setup.py:23-24 | a piece strips to the empty string exactly when it is all whitespace |
| `DatabaseSetup.StripIdempotent` | database/setup.py:23 | stripping twice is stripping once |
| `DatabaseSetup.Commands` | database/setup.py:19-24 | there are never more commands than pieces |
| `DatabaseSetup.CommandsAppend` | database/setup.py:22-24 | each piece is handled on its own: the commands of two runs of pieces, one after the other, are the commands of the first followed by those of the second |
| `DatabaseSetup.CommandsAreClean` | database/setup.py:19-24 | every executed command is non-blank, already stripped and free of `;` |
| `DatabaseSetup.BlankPiecesSkipped` | database/setup.py:22-24 | the number of commands is the number of pieces minus the blank ones |
| `DatabaseSetup.ExecuteCommands` | database/setup.py:22-31 | the commands run in piece order, each only after the previous one succeeded; the loop completes exactly when every command ran and succeeded, that is, when the first as many calls as there are commands all succeeded; otherwise the last command attempted is the one that failed |
| `DatabaseSetup.InitDb` | database/setup.py:10-38 | an unreadable schema gives `False` with nothing executed; otherwise the result is `True` exactly when every stripped non-blank piece of the schema ran and succeeded, in order, and on `False` the last command attempted is the one that failed |
| `DatabaseSetup.RegisterDownload` | database/setup.py:40-51 | the call is `CALL register_download(%s, %s, %s, %s, %s)` with the five arguments in order; the result is `True` exactly when the call returned and `False` exactly on `DatabaseError`; any other exception propagates |
| `DatabaseSetup.RegisterDownloadDefaults` | database/setup.py:40 | left at their defaults, status is `'success'` and error_message is `None` |
| `Sessions.LoginRequired` | routes/sessions.py:14-22 | the wrapped view runs exactly when `'user'` is in the session, and its result is returned; otherwise the response flashes 'Please log in first' and redirects to the login page |
| `Sessions.RegistrationProblem` | routes/sessions.py:33-44 | the form passes exactly when all four fields are non-empty, the passwords match and the password has at least eight characters; otherwise the message is that of the first failing check, in that order |
| `Sessions.CreateAccount` | routes/sessions.py:46-82 | a failed lookup gives the registration or the unexpected-error message; a truthy lookup result refuses with 'Username or email already exists'; the only write is the INSERT with `hash(password)`; once the INSERT was issued, a `DatabaseError` from it or from the read-back gives 'An error occurred during registration', any other exception, `[0]` on a result that is not a non-empty list included, gives 'An unexpected error occurred', and the INSERT stays among the writes; the session changes only when the new row was read back, and then it holds that row under `'user'` with 'Account created successfully'; when every call succeeds that is the outcome |
| `Sessions.Register` | routes/sessions.py:24-84 | GET renders the form; the checks run in a fixed order (all fields, then confirmation, then length), and the first one that fails decides the message with nothing written; a valid form goes on to create the account; the only write is the INSERT of a valid form, which stores `hash(password)` |
| `Sessions.PasswordLengthBoundary` | routes/sessions.py:42-44 | a confirmed password gets the length message exactly when it has at most seven characters |
| `Sessions.StoredPasswordNotPlaintext` | routes/sessions.py:57-63 | when the hash never returns its input, the INSERT never carries the plaintext password |
| `Sessions.SessionRecord` | routes/sessions.py:128-138 | the session record has exactly the keys id, username, email, logged_in and login_time; it never holds the password; its values come from the user row, with `logged_in` true and `login_time` the login time |
| `Sessions.StartSession` | routes/sessions.py:121-153 | the last-login UPDATE for the user's id is the only write; if it raises, the session is unchanged and the flash is 'An error occurred during login'; otherwise the session holds the record of the user; a failing folder creation then gives the error flash, and otherwise the flash welcomes the user by name |
| `Sessions.Authenticate` | routes/sessions.py:97-119 | a failed lookup gives the login or the unexpected-error message; a falsy or empty result gives 'Invalid username or password'; a truthy result without `len()`, or one with a non-zero length whose `[0]` raises, gives 'An unexpected error occurred'; a first row without all fields gives the login error, one whose hash does not check gives 'Invalid username or password', and one that checks starts the session; the session changes only to the record of such a user |
| `Sessions.Login` | routes/sessions.py:86-164 | GET renders the form; missing fields give 'Username and password are required'; the session changes only for a user row with all fields whose password hash checks, after the last-login UPDATE returned, and it then holds the session record of that row |
| `Sessions.LoginHidesWhichCheckFailed` | routes/sessions.py:103-119 | an unknown user and a wrong password both give 'Invalid username or password' and leave the session as it was |
| `Sessions.LoginFolderFailureKeepsSession` | routes/sessions.py:140-153 | if creating the user's folder fails, the page reports 'An error occurred during login', but the session already holds the user |
| `Sessions.Logout` | routes/sessions.py:166-170 | `'user'` leaves the session; every other key stays with its value; the flash is 'Logged out successfully'; the browser goes to the index page and nothing is written |
| `Sessions.LogoutLocksViews` | routes/sessions.py:166-170 | after logout every view behind `login_required` is refused |
| `Sessions.UnflaggedLookup` | database/core.py:127-140 | a lookup through `execute_query` without fetch flags returns `True`, whatever rows the query found |
| `Sessions.RegisterAsWired` | routes/sessions.py:47-54 | as called, with both lookups getting `True`, the existence check always holds: no user is ever inserted and the session never changes |
| `Sessions.RegisterReadBackAsWired` | routes/sessions.py:66-69 | with only the existence lookup fetching rows, a valid registration of a fresh name issues the INSERT but `True[0]` then raises: the flash is 'An unexpected error occurred' and nobody is logged in |
| `Sessions.RegisterFetchingRows` | routes/sessions.py:47-73 | with rows fetched, a taken name or email inserts nothing, and a valid new registration inserts the hashed password and logs in the row read back |
| `Sessions.LoginAsWired` | routes/sessions.py:98-105 | as called, every login with both fields filled in ends in 'An unexpected error occurred', and the session never changes |
| `Sessions.LoginFetchingRows` | routes/sessions.py:98-148 | with rows fetched, an unknown name gives 'Invalid username or password'; a user whose password checks is logged in without the hash in the session and welcomed by name |
| `Download.Mp3Files` | routes/download.py:18 | the candidates are exactly the listing entries ending in `.mp3`, never more than the listing |
| `Download.FirstMp3IsEarliest` | routes/download.py:22 | the reported file is the earliest listing entry ending in `.mp3` |
| `Download.NoMp3Files` | routes/download.py:18-20 | a listing without `.mp3` entries leaves no candidate |
| `Download.AfterRun` | routes/download.py:16-29 | a non-zero exit gives 500 'Error al descargar la canción'; the reply is 200 exactly when the tool exited with 0 and the folder holds an `.mp3`, and then it carries 'Descarga completada' and `/descargar/` plus the first one; no `.mp3` gives 500 'No se encontró el archivo descargado'; the reply is an uncaught exception exactly when the executable is missing or, after exit 0, listing the folder raises |
| `Download.DownloadSpdl` | routes/download.py:9-29 | a falsy URL gives 400 'No se proporcionó una URL' without running anything; otherwise `spotdl <url> --output downloads` runs and the reply follows its outcome |
| `Download.DownloadYtdl` | routes/download.py:31-51 | a falsy URL gives 400 without running anything; otherwise `yt-dlp -P downloads -x --audio-format mp3 --ffmpeg-location <path> <url>` runs, with the URL as the last argument, and the reply follows its outcome |
| `Download.EndpointsReplyAlike` | routes/download.py:9-51 | on the same process outcome and folder listing the two endpoints give the same reply |
| `Download.ReportedFileIsInFolder` | routes/download.py:18-26 | a 200 reply links a file of the folder that ends in `.mp3` |

## Left out

- The MySQL driver, the connection pool and its configuration are not modelled. This covers `_setup_pool` with its own three attempts, `get_connection` and `DB_CONFIG`. Pool setup is reduced to its outcome, and every query is an input: how the call completed.
- `execute_query` turns driver errors into `DatabaseError` itself. The retry decorator is modelled on its own, over any sequence of outcomes, and is not composed with the query methods.
- `execute_many`, `health_check` and the other query helpers of `DatabaseManager` are not modelled. They are outside the modelled core.
- `DatabaseCore.RetryOnError`: the trace records that a sleep happens between attempts, not how long it lasts. The warning log lines are not modelled.
- Logging, `flash` storage, `url_for` and `render_template` are not modelled. A response names its endpoint or template.
- Password hashing is left abstract because it is a foreign library. `generate_password_hash` and `check_password_hash` are function parameters.
- `Sessions.Login`: `check_password_hash` is total here. Its exception on a malformed stored hash is not modelled.
- `Sessions.Register`: an exception raised by `generate_password_hash` is not modelled.
- `datetime.now().isoformat()` is not modelled because it reads the clock. It is the `now` parameter.
- `os.makedirs`, `os.listdir`, `open` and `subprocess.run` are not modelled because they are I/O. Each is reduced to its outcome: an exception or not, a listing, an exit code or a missing executable.
- Rows are read by column name, as the code reads them. The driver's default cursor returns tuples, which the model does not represent.
- `Download.DownloadSpdl`: the URL is a string or absent. A non-string JSON value and a request without a JSON body are not modelled.
- `Download.DownloadYtdl`: the same limits on the URL apply, and `FFMPEG_PATH` is a parameter because it depends on the working directory.
- Integers are unbounded. MySQL column widths are not modelled.
- The application has no result cache, no coordination of concurrent downloads and no download queue, so the model has none either. Flask routing, `routes/downs.py`, `routes/interfaces.py`, `routes/index.py`, the templates and the JavaScript front end are not part of this model.

## Findings

| source | as written | input that shows it | evidently intended | confidence | as-written member | corrected member |
|---|---|---|---|---|---|---|
| routes/sessions.py:47-54 | the existence lookup calls `execute_query` without a fetch flag, so it gets `True` and `if existing_user:` always holds | any valid registration, e.g. username `a`, email `b`, password and confirmation `12345678` | look up the rows (`fetch_all=True`) and refuse only when one exists | not executed | `Sessions.RegisterAsWired` | `Sessions.RegisterFetchingRows` |
| routes/sessions.py:66-69 | the read-back of the new user calls `execute_query` without a fetch flag, so `[0]` is applied to `True` and raises `TypeError` after the INSERT | a valid registration of a fresh name once the existence lookup fetches rows | fetch the rows (`fetch_all=True`) and log in the first one | not executed | `Sessions.RegisterReadBackAsWired` | `Sessions.RegisterFetchingRows` |
| routes/sessions.py:98-105 | the user lookup calls `execute_query` without a fetch flag, so `result` is `True` and `len(True)` raises `TypeError` | any login with both fields filled in, e.g. username `a`, password `x` | fetch the rows (`fetch_all=True`), then check the password of the first row | not executed | `Sessions.LoginAsWired` | `Sessions.LoginFetchingRows` |
