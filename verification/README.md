# GoPanel: a verified model of its stateful protocols

GoPanel is a single-process control panel over one SQLite file. This project models the parts of it whose
guarantees hold over whole runs, and proves those guarantees with Dafny. `dafny verify dfyconfig.toml` checks
everything.

- **Sessions.** `Calendar`, `Rfc3339`, `Sessions`, `ServerList`: expiry and creation times are stored as RFC 3339
  text, parsed when looked up but compared as strings when cleaned up or listed. The exact condition under which text
  order is time order is proved, and what it means for lookup, cleanup and listing.
- **Login.** `LoginLimiter`, `Logins`, `AuthService`, `PasswordHash`: a token bucket, a bounded table of fixed windows,
  hash strings, and what the order of a login's steps guarantees when any number of logins and password changes
  interleave.
- **Form tokens.** `Text`, `Base64`, `Csrf`: length framing, strict base64, decimal expiries and dot-separated tokens,
  all undone exactly, and what a token is good for.
- **Docker status.** `Poller`, `PollerCache`, `PollerRuns`, `PollerProgress`, `StatusCache`, `Recorder`,
  `DockerCheck`: the producer, the worker pool, cancellation and the HTTP handlers as one step machine over the shared
  cache and the 200-slot diagnostic buffer; the cache, the buffer and one check are also methods on objects, tied to
  the machine.
- **Lifecycle.** `Lifecycle`: the poller machine inside the application's start, serve, drain and finish sequence.
- **Registration and migrations.** `Registration`, `Migrations`: concurrent audited inserts and forward-only schema
  migration, with a failure possible at every store call.
- **Two smaller algorithms.** `LogLines`, `Redaction`.

Strings hold one `char` per byte. Clocks, randomness, faults of the database or of Docker, and what a library returns
are inputs. A run is a sequence of steps; a theorem about runs speaks of every sequence in which each step was possible
when it was taken.

## Where the code is not what one might expect

- docs/ARCHITECTURE.md:533-539 says expired sessions are removed. Because the comparison is between texts with trimmed
  fractions, a cleanup can also delete a session with up to, but not including, one second left
  (`Sessions.LiveSessionDeleted`), and can keep one expired by less than a second (`Sessions.CleanupBound` gives both
  exactly). The server list is newest first to within a second for the same reason.
- `Poller.StuckWithoutWorkers`: a concurrency of zero would hang a poll until shutdown. The program always passes six.
- `Migrations.EditedFileDrifts`: an edited migration file that keeps its name is accepted.
- internal/auth/password.go:70-73 does not look at what precedes the first dollar sign of a hash string;
  `PasswordHash.DecodesExactlyAccepted` therefore allows any text there.
- Decoding base64 skips CR and LF even in strict mode, so token and hash strings have spellings that differ in these
  two characters; `Base64.DecodesExactly` says these are the only ones.
- With a bound of zero `boundLogLines` keeps a final newline (`LogLines.ZeroLines`). The program passes a positive bound.

## Assumptions

- The MAC, the key derivation and the digest are arbitrary functions with outputs of the right length. Nothing assumes
  that a MAC is injective: a statement about what a token is not good for names the one pair of inputs that would have
  to collide. Session statements exclude, for the token in question, a second token of the history with its digest.
- A statement that returns an error changed nothing, with exceptions that are modelled: a failed commit of a migration
  or of a password update may have been durable, and an audit update's row count may fail to be read after the update.
- The limiters' clock never goes back, and its readings are after Go's zero time.

## Model

| member | source | states |
|---|---|---|
| `Text.JoinSplit` | internal/container/client.go:129-137 | Joining what splitting a text at a character gives back returns the text, for every text and separator |
| `Text.SplitJoin` | internal/auth/csrf.go:101-104 | Splitting a join of separator-free parts returns exactly those parts, so the dot-separated fields are recovered |
| `Text.SplitHead` | internal/auth/password.go:66-73 | A separator-free first field is split off exactly, and the rest splits as it would alone |
| `Text.DecimalValue` | internal/auth/password.go:66 | The decimal numeral of a number consists of digits and has that number as its value |
| `Text.ParseFormatInt` | internal/auth/csrf.go:72 | Parsing undoes formatting for every signed 64-bit expiry |
| `Text.ParseInt64Exactly` | internal/auth/csrf.go:72 | A string parses to x if and only if it is an optional sign and at least one digit spelling x, within 64 bits |
| `Text.DecimalCanonical` | internal/auth/csrf.go:37 | The numeral of a number has no leading zero |
| `Text.FixedOrder` | internal/auth/store.go:132 | Zero-padded numerals of one width compare as text exactly as their numbers compare |
| `Base64.DecodeEncode` | internal/auth/csrf.go:96-112 | Decoding undoes unpadded encoding for every byte string, in both alphabets (sections 4 and 5 of RFC 4648) |
| `Base64.DecodesExactly` | internal/auth/csrf.go:105-112 | A string decodes to some bytes if and only if, with CR and LF removed, it is their encoding: strict decoding accepts no second spelling (sections 3.2 and 3.5 of RFC 4648) |
| `Base64.EncodeShape` | internal/auth/csrf.go:38 | Encoded text uses only its alphabet, so it contains no dot, dollar sign, CR or LF, and has the exact unpadded length |
| `Base64.EncodesByTable` | internal/auth/csrf.go:38 | The 64 characters of each alphabet, written out, are the ones encoding uses (sections 4 and 5 of RFC 4648) |
| `Base64.QuantumValue` | internal/auth/csrf.go:38 | The sextets of one, two or three bytes spell the same number as the bytes, padded with zero bits (section 4 of RFC 4648) |
| `Calendar.DateOfDay` | internal/auth/store.go:75 | The proleptic Gregorian date computed for a day number is valid and has that day number, for all days of years 0 to 9999 |
| `Calendar.DateOrder` | internal/auth/store.go:132 | Valid dates compare field by field if and only if their day numbers compare the same way |
| `Calendar.MonthStartFormula` | internal/auth/store.go:75 | Every month starts where a closed formula in the month number says, leap years included |
| `Calendar.DayNumberIsMarchCount` | internal/auth/store.go:75 | The day number of every valid date is a closed formula in year, month and day, which uses no table of month lengths |
| `Rfc3339.ParseFormat` | internal/auth/store.go:75-93 | Parsing a formatted UTC instant returns that instant, to the nanosecond, for years 0 to 9999 (section 5.6 of RFC 3339) |
| `Rfc3339.FormatLayout` | internal/auth/store.go:75 | Character by character what is printed for an instant: the date of its day, hours, minutes, seconds, and its nanoseconds without trailing zeros (section 5.6 of RFC 3339) |
| `Rfc3339.ParsesExactly` | internal/auth/store.go:93 | A string parses to an instant if and only if it is laid out like a printed one, with a valid date and time and any fraction digits, and those name the instant; digits past the ninth are dropped |
| `Rfc3339.TextOrder` | internal/auth/store.go:131-132 | Two printed instants compare as text in time order exactly when they do not share a second with one trimmed fraction extending the other; in that case they compare in reverse (section 5.1 of RFC 3339) |
| `Rfc3339.OneSecondApart` | internal/auth/store.go:131-132 | Instants a full second apart always compare as text in time order |
| `Rfc3339.HalfSecondSortsFirst` | internal/auth/store.go:131-132 | A concrete family where text order is wrong: half past any whole second sorts before that second |
| `Sessions.LookupIsHistory` | internal/auth/store.go:67-142 | After any history of session operations a lookup at t finds user u exactly when the token was created for u less than twelve hours before t and no later logout, committed password change or cleanup ended it, unless another token of the history shares its digest |
| `Sessions.TableIsStanding` | internal/auth/store.go:67-142 | For every history the table holds a row for a token exactly while one of its sessions stands, and it is that session's row |
| `Sessions.CleanupChangesLookup` | internal/auth/store.go:131-136 | Exactly which lookups at or after a cleanup it changes: those of a live session whose expiry shares the cleanup's second with one fraction extending the other |
| `Sessions.CleanupKeepsLaterLookups` | internal/auth/store.go:131-136 | A cleanup changes no lookup made a full second or more after it |
| `Sessions.OldCleanupsInvisible` | internal/auth/store.go:82-142 | Over any history, cleanups a full second or more before a lookup have no part in its answer; the other conditions are those of LookupIsHistory |
| `Sessions.CleanupBound` | internal/auth/store.go:131-136 | A cleanup deletes every session expired by a full second, none with a full second left, and between the two exactly those whose text is smaller |
| `Sessions.LiveSessionDeleted` | internal/auth/store.go:131-136 | A cleanup on a whole second deletes a session that still has half a second to live |
| `Sessions.PasswordChangeInvalidates` | internal/auth/store.go:115-130 | A committed password change makes every lookup that found that user fail and changes no other lookup |
| `Sessions.SessionStore.CreateSession` | internal/auth/store.go:67-81 | Succeeds exactly when randomness, insert, primary key and foreign key allow it, writes one row with the printed expiry twelve hours on, returns the encoded token, and adds one creation to the history |
| `Sessions.SessionStore.FindSession` | internal/auth/store.go:82-99 | Answers by the history: exactly the user of the token's surviving unexpired session, or not found, or a backend error |
| `Sessions.SessionStore.UpdatePassword` | internal/auth/store.go:115-130 | Both statements take effect or neither does: once committed, even by a commit that reports an error, the hash is stored, no session of the user is left and the change is in the history; the user's other columns and all other users stay as they were; success is reported exactly without a fault |
| `Sessions.SessionStore.DeleteSession` | internal/auth/store.go:100-107 | Removes exactly the row under the token's digest and records the logout, or nothing on a fault |
| `Sessions.SessionStore.DeleteUserSessions` | internal/auth/store.go:108-114 | Ends every session of the user and records it, or nothing on a fault |
| `Sessions.SessionStore.CleanupExpired` | internal/auth/store.go:131-142 | Keeps exactly the rows whose text is not before the cleanup's and reports how many went |
| `LoginLimiter.LevelIsLeastAllowance` | internal/auth/rate_limit.go:28-42 | The bucket's level at a call is the least, over all windows ending there, of the burst plus refill less the grants in the window |
| `LoginLimiter.RefusedExactly` | internal/auth/rate_limit.go:32-42 | The global limiter refuses precisely when granting would put more than twenty and one per elapsed second into some window from an earlier call or construction |
| `LoginLimiter.GlobalBound` | internal/auth/rate_limit.go:32-42 | Any interval of calls holds at most twenty grants and one per elapsed second |
| `LoginLimiter.SecondLaterSucceeds` | internal/auth/rate_limit.go:67-73 | A call a second or more after the previous one always succeeds |
| `LoginLimiter.TableBounded` | internal/auth/rate_limit.go:43-66 | After any calls the table has at most 1024 entries, each counting one to five attempts in a window ending at most a minute after the latest call |
| `LoginLimiter.RecoversAfterWindow` | internal/auth/rate_limit.go:43-61 | More than a minute after the last call every account, whatever the table held, is allowed again |
| `LoginLimiter.RefusalIsInvisible` | internal/auth/rate_limit.go:43-61 | A refused attempt changes no later answer, so it never prolongs a lockout |
| `LoginLimiter.LockoutExact` | internal/auth/rate_limit.go:43-80 | With room in the table, five attempts within a minute of an account's first are granted, and the next is granted exactly when more than sixty seconds have passed since that first and the table again has room |
| `LoginLimiter.AccountAlone` | internal/auth/rate_limit.go:43-80 | While fewer than 1024 entries are live at its calls, an account's window is the one a limiter serving it alone would hold |
| `LoginLimiter.AnswersDependOnOwnCalls` | internal/auth/rate_limit.go:43-80 | Then each of its answers is the one its own calls alone would get |
| `LoginLimiter.AccountBound` | internal/auth/rate_limit.go:43-66 | Between a and b an account is granted at most five attempts per whole or part window, five per reset of the account, and five more, whatever other accounts do |
| `LoginLimiter.UnresetBound` | internal/auth/rate_limit.go:43-61 | So in a stretch without a reset of the account at most five per window and five more |
| `LoginLimiter.RefusedOnlyAfterFive` | internal/auth/rate_limit.go:43-61 | An attempt is refused only if the table is full or five were granted to the account within the last minute |
| `LoginLimiter.LoginLimiter.AllowGlobal` | internal/auth/rate_limit.go:32-42 | The method's answer is the declarative one: refused exactly when some window would be overdrawn |
| `LoginLimiter.LoginLimiter.AllowAccount` | internal/auth/rate_limit.go:43-61 | The method's answer and table are those of the call history, and the table stays within its bound |
| `LoginLimiter.LoginLimiter.Clear` | internal/auth/rate_limit.go:62-66 | Reset removes exactly that account's entry |
| `LoginLimiter.LoginLimiter.EvictExpired` | internal/auth/rate_limit.go:74-80 | Deleting while walking the keys leaves exactly the unexpired entries |
| `AuthService.Service.Login` | internal/auth/service.go:18-47 | Rate limited exactly when the global window is overdrawn or the account's attempt refused; the window is cleared only after the account's own password verified; a session appears only on success, for that user; and the outcome and the limiter are those of the concurrent machine's login steps taken alone |
| `AuthService.Service.Authenticate` | internal/auth/service.go:18-41 | Up to the cleared window, the answer and the limiter calls are decided in the order global limiter, address, account limiter, lookup, password |
| `AuthService.Service.ChangePassword` | internal/auth/service.go:48-63 | Succeeds exactly when the current password verifies, the new one is repeated and of allowed length, a salt was drawn and no fault came; once committed the stored hash accepts exactly what derives the new key and no session of the user is left, otherwise nothing changed; the outcome is that of the machine's password-change steps taken alone |
| `Logins.LoginAlone` | internal/auth/service.go:18-47 | A login's machine steps taken alone end with the outcome and the limiter calls that the source's order of checks decides |
| `Logins.ChangeAlone` | internal/auth/service.go:48-63 | Likewise a password change, which touches no limiter |
| `Logins.RunKeeps` | internal/auth/service.go:18-63 | However logins and password changes interleave, every login's check of a stored hash has a limiter grant of its own, each reset of an account has a login of its own that verified its password, each password change checks its own account's hash once, and derivations never outnumber global grants and two per password change |
| `Logins.GuessBound` | internal/auth/service.go:18-47 | However requests interleave, of the login attempts on an account between a and b at most five per window, five per reset of the account since, and five more are checked against its stored hash |
| `Logins.FailedGuessBound` | internal/auth/service.go:18-63 | Whatever the account's owner does meanwhile, the wrong passwords checked against its stored hash between a and b are at most five per window and five more, four for each login that verified the password, and one for each password change begun in a session of the account |
| `Logins.UnmatchedBound` | internal/auth/service.go:18-47 | While no login, the owner's included, verifies the account's password, logins check at most five guesses per window and five more |
| `Logins.DerivationBound` | internal/auth/service.go:18-63 | Key derivations of logins and password changes, the dummy ones included, number at most twenty and one per second since the first login asked, and two for each password change |
| `Logins.DerivationsExact` | internal/auth/service.go:18-63 | In every reachable state the key derivations made, dummy ones included, are exactly those the stages of the requests account for |
| `Csrf.MacInputInjective` | internal/auth/csrf.go:117-134 | MAC inputs of fields shorter than 2^64 bytes are equal only for the same domain and the same list of fields, of whatever number |
| `Csrf.MacInputLayout` | internal/auth/csrf.go:117-134 | The MAC input is the version, the domain and each field in turn, each behind its length as eight bytes |
| `Csrf.BigEndianNumber` | internal/auth/csrf.go:129-134 | The length bytes, read with the most significant first, are the length |
| `Csrf.RunningHash.WriteFrame` | internal/auth/csrf.go:129-134 | Writes the eight-byte big-endian length and the value after what was written |
| `Csrf.ComputeMac` | internal/auth/csrf.go:117-125 | The digest written frame by frame is the MAC of the whole framed input |
| `Csrf.TokenValidates` | internal/auth/csrf.go:91-115 | A new token validates for the domain, context and expiry it was issued for |
| `Csrf.TokenBinds` | internal/auth/csrf.go:91-115 | It validates for another domain, context or expiry only if the two named MAC inputs collide |
| `Csrf.AcceptsExactly` | internal/auth/csrf.go:100-115 | Exactly which strings a token check accepts: version, a 32-byte nonce and the one MAC, up to CR and LF |
| `Csrf.NewLoginContextValidates` | internal/auth/csrf.go:28-55 | Cookie and token of a new login context validate exactly before issue plus fifteen minutes cut to whole seconds |
| `Csrf.ContextExactly` | internal/auth/csrf.go:63-89 | Any string is an accepted login context at t, with expiry x, if and only if it has four fields: "v1", a 32-byte encoding, a spelling of x still ahead of t, and the encoding of the one MAC over the second and third, up to CR and LF |
| `Csrf.ForgedContextRefused` | internal/auth/csrf.go:63-89 | A cookie whose fourth field encodes any other bytes is refused at every time: it gets no token and no login form validates with it |
| `Csrf.LoginExactly` | internal/auth/csrf.go:42-55 | A login form's cookie and token are accepted if and only if the cookie is an accepted context and the token is a version, a 32-byte nonce and the one MAC over cookie, nonce and that expiry |
| `Csrf.LoginTokenValidates` | internal/auth/csrf.go:42-55 | A token for the same cookie is issued, and validates, over exactly the same time |
| `Csrf.LoginTokenBindsCookie` | internal/auth/csrf.go:42-55 | A login token validates with no other cookie unless the two named inputs collide |
| `Csrf.AuthTokenBindsSession` | internal/auth/csrf.go:56-61 | An authenticated form's token validates for its own non-empty session, and for another only if the two named inputs collide |
| `Csrf.DomainsSeparate` | internal/auth/csrf.go:42-61 | No token crosses between the login and the authenticated domain unless the two named inputs collide |
| `Csrf.PurposesNeverCoincide` | internal/auth/csrf.go:17-19 | Login-context, login-token and authenticated-token MAC inputs never coincide |
| `PasswordHash.DecodeEncodeHash` | internal/auth/password.go:65-88 | Decoding undoes encoding for every 16-byte salt and 32-byte hash |
| `PasswordHash.ParametersRoundTrip` | internal/auth/password.go:89-108 | Printed parameters that fit their widths parse back |
| `PasswordHash.DecodesExactlyAccepted` | internal/auth/password.go:69-108 | Exactly which strings decode and to what: any front, the two fixed fields, a spelling of the configured parameters, and base64 of the two sizes |
| `PasswordHash.ConfiguredExactly` | internal/auth/password.go:89-108 | A parameter field is accepted exactly when it is three digit strings of values 19456, 2 and 1, leading zeros allowed, each with or without its label |
| `PasswordHash.VerifyHashed` | internal/auth/password.go:27-49 | A password of 12 to 1024 bytes hashes, and the hash accepts q exactly when q is at most 1024 bytes and derives the same key |
| `PasswordHash.VerifyExactly` | internal/auth/password.go:39-49 | A password verifies against any string if and only if it is at most 1024 bytes and the string decodes to a salt and the key the password derives with it |
| `Recorder.Recorder.AppendRecord` | internal/diagnostic/record.go:86-95 | After any sequence of records the shifting buffer is exactly the last 200 of them in order |
| `Recorder.Recorder.Lookup` | internal/diagnostic/record.go:69-78 | The backward walk returns the newest record with the reference among the last 200, or nothing |
| `Recorder.Recorder.Snapshot` | internal/diagnostic/record.go:80-84 | A fresh copy of exactly the last 200 records in order |
| `Recorder.NewestIsLast` | internal/diagnostic/record.go:69-78 | What lookup finds exists exactly when a record has the reference, and no later record has it |
| `Recorder.LookupWindow` | internal/diagnostic/record.go:69-95 | A reference issued once is found exactly while fewer than 200 records followed it |
| `Recorder.ReverseInPlace` | internal/diagnostic/handler.go:36-38 | The swap loop leaves the slice reversed |
| `Recorder.ReversedAt` | internal/diagnostic/handler.go:36-38 | Position k of the reversal is position k from the end |
| `Recorder.ListNewestFirst` | internal/diagnostic/handler.go:32-38 | The Error Log lists the last 200 records, newest first, position by position |
| `StatusCache.StatusCache.Get` | internal/container/status.go:33-41 | An entry filed under its own server, with a reference exactly when unavailable; not checked exactly when absent |
| `StatusCache.StatusCache.MarkUnavailable` | internal/container/status.go:51-59 | Overwrites that server's status alone; the cache stays well formed exactly when the reference is not empty |
| `StatusCache.StatusCache.MarkConnected` | internal/container/status.go:47-49 | Overwrites that server's status alone, without a reference |
| `StatusCache.StatusCache.MarkChecking` | internal/container/status.go:43-45 | Overwrites that server's status alone, without time or reference |
| `StatusCache.MarkThenLookup` | internal/container/status.go:33-59 | What a lookup after each marking returns, field by field, for the server marked, and that every other server's is unchanged |
| `Poller.RunKeepsPool` | internal/app/app.go:275-306 | In every interleaving each dispatched position is held by one worker or finished once, no other is either, and the channel closes only at the end of the list or after cancellation |
| `Poller.BoundedConcurrency` | internal/app/app.go:282-287 | At most the smaller of the concurrency and the list's length checks are in flight |
| `Poller.PollReturnsComplete` | internal/app/app.go:288-298 | When a poll returns no worker is left and exactly a prefix of the list was checked, each position once; the whole list if never cancelled |
| `Poller.MovesUnlessDeadlocked` | internal/app/app.go:275-306 | A poll under way can take a step of its own exactly unless it has no workers, jobs left and no cancellation |
| `Poller.NeverStuck` | internal/app/app.go:275-306 | With concurrency at least one no interleaving leaves a poll stuck |
| `Poller.StuckWithoutWorkers` | internal/app/app.go:282-297 | With concurrency zero a poll of any server hangs until cancelled |
| `Poller.PollBounded` | internal/app/app.go:275-326 | However others interleave, a poll takes no more steps of its own than its remaining work |
| `Poller.PollTerminates` | internal/app/app.go:275-326 | Until it returns, a poll of n servers takes at most seven steps of its own per server, one per worker and two |
| `Poller.PollReturns` | internal/app/app.go:275-306 | With concurrency at least one a poll returns: until it has, some step of its own is always possible, and their number is bounded, whatever interleaves |
| `Poller.StoppedForGood` | internal/app/app.go:260-273 | Once stopped, the poller and its workers never act again |
| `PollerCache.RunKeepsReferences` | internal/app/app.go:308-326 | In every interleaving of workers and handlers, whatever is cached, carried by a worker or about to be marked has a reference issued for that server exactly when unavailable |
| `PollerCache.ShownReferencesAreReal` | internal/container/status.go:33-59 | Each cached status is its own server's, carries a reference exactly when unavailable, and that reference was recorded for that server, reused ones included |
| `PollerCache.ShownReferenceResolves` | internal/diagnostic/record.go:69-95 | With references issued once, the Error Log finds a shown reference, about that server, exactly while fewer than 200 records followed |
| `PollerRuns.OneDiagnosticPerRun` | internal/app/app.go:308-326 | With distinct ids and only the poller writing, a server's diagnostics over all polls are exactly one per maximal run of failed checks, in order, and all failures of a run show that run's reference |
| `PollerRuns.DiagnosticsCountRuns` | internal/app/app.go:308-326 | Their number is the number of maximal runs of failures |
| `PollerRuns.RunSharesReference` | internal/app/app.go:308-326 | Any two failures of one run showed the same reference |
| `PollerProgress.LaterPollChecks` | internal/app/app.go:260-331 | From every reachable waiting, uncancelled state, with concurrency at least one, a next poll of any list can go on to complete a check of the server at any position of it |
| `PollerProgress.ListFailuresRecorded` | internal/app/app.go:275-280 | The log holds exactly one listing record for each failed listing |
| `PollerProgress.RunFromTokens` | internal/diagnostic/record.go:128-136 | In a run whose random tokens are distinct, all references in the log are distinct |
| `DockerCheck.Application.CheckDockerStatus` | internal/app/app.go:308-326 | The server's status and the log after the check, in each case; no other server's status changes; and the machine's worker steps leave the same when nothing comes in between |
| `DockerCheck.AloneEnds` | internal/app/app.go:308-326 | What a whole check leaves: checking if cancelled, connected, the old reference, or a newly recorded one |
| `DockerCheck.Application.FinishOperation` | internal/container/handler.go:47-116 | The server's status and the log after an operation: connected, unchanged for expected errors, or recorded and then unavailable; the machine's handler steps leave the same |
| `DockerCheck.Application.RecordDockerStatusFailure` | internal/app/app.go:328-331 | Adds one record for that server and action and returns its non-empty reference |
| `Lifecycle.RunKeeps` | internal/app/app.go:93-160 | What holds at every stage of every run: events so far, flags, where the cleanup and the poller can be |
| `Lifecycle.ClosedOnceInOrder` | internal/app/app.go:151-160 | When Run returns, listen and serve failure and drain timeout included, the Docker client was closed once, then the store once, then completion logged exactly if shutting down |
| `Lifecycle.CompletionTellsTruth` | internal/app/app.go:93-160 | Over the steps of any run that has returned: completion was logged exactly if the server saw the cancellation, as clean if and only if no drain timed out, no serve failed and no store close failed; Run returned an error exactly if one of these or a Docker close or the listen failed; a failed listen logs no completion |
| `Lifecycle.RunRemembers` | internal/app/app.go:93-160 | At every stage of every run the flags say which of those steps have been taken |
| `Lifecycle.NoTaskAfterFinish` | internal/app/app.go:101-120 | Once finish has begun it is never left, and neither the poller, its workers nor the session cleanup takes another step |
| `Lifecycle.NoCheckAfterClose` | internal/app/app.go:101-108 | While any worker exists neither the Docker client nor the store has been closed |
| `Lifecycle.ShutdownCanFinish` | internal/app/app.go:101-160 | After cancellation, or once serving has ended by itself, no interleaving leads to a state from which Run can no longer return, whatever the concurrency |
| `Lifecycle.CleanupCanRun` | internal/app/app.go:333-350 | While serving and not cancelled, some continuation runs a session cleanup |
| `Registration.RunKeepsInvariant` | internal/server/service.go:94-115 | In every interleaving of concurrent creations and failures each operation's rows are its own, new, shared with no other and in a state its progress accounts for |
| `Registration.ServerRowIsAudited` | internal/server/service.go:103-110 | A new server row is there only with an audit row that names it and is not failed |
| `Registration.AuditTellsTruth` | internal/audit/audit.go:53-71 | A success row's operation inserted its target; a failed row's insert errored |
| `Registration.OutcomeTellsTruth` | internal/server/service.go:94-139 | What each caller is told against what the tables hold, for every outcome |
| `Registration.ResolvedOnce` | internal/audit/audit.go:53-71 | An audit row leaves attempted at most once, whatever runs later |
| `Registration.RunGrows` | internal/audit/audit.go:38-71 | Rows are never removed, and only an attempted row's result ever changes |
| `Registration.RunConserves` | internal/server/service.go:94-115 | New server rows are new success rows plus operations that inserted and have not been finalised, in every reachable state |
| `Registration.AuditStore.RecordAttempt` | internal/audit/audit.go:38-51 | Inserts one attempted row under a new id, or nothing |
| `Registration.AuditStore.RecordResult` | internal/audit/audit.go:53-71 | Succeeds exactly when an attempted row was resolved to success or failure; a lost row count reports an error after the change |
| `Registration.ServerStore.Create` | internal/server/store.go:15-24 | Inserts exactly when neither the statement fails nor the id is taken |
| `Registration.Service.Create` | internal/server/service.go:94-139 | Which circumstances give which outcome, each exactly, and both tables after every one of them; its steps in the concurrent machine, taken alone, do the same |
| `Registration.AloneDecides` | internal/server/service.go:94-139 | An operation of the concurrent machine taken alone ends with the outcome and the tables its circumstances decide |
| `ServerList.ServerTable.Create` | internal/server/store.go:15-24 | Inserts one new server with both timestamps at now, or nothing, and returns it as it will read back |
| `ServerList.ServerTable.Get` | internal/server/store.go:50-79 | A created server reads back exactly as creation returned it |
| `ServerList.ServerTable.List` | internal/server/store.go:26-48 | Without a fault, every created server exactly once, none followed by one a full second newer, and a newer one only where fractions extend each other |
| `ServerList.ListedOrder` | internal/server/store.go:27 | Exactly how far listing order can depart from time order |
| `Migrations.SequentialExactly` | internal/store/migrations.go:54-124 | However the sort arranges the parsed migrations, the gap check passes exactly for versions one to n, each once |
| `Migrations.LoadExactly` | internal/store/migrations.go:54-70 | Loading succeeds exactly when the parsed versions are a permutation of one to n, and returns them in order |
| `Migrations.LoadOrderFree` | internal/store/migrations.go:54-85 | Any two directory listings of the same files load alike |
| `Migrations.LoadMigrations` | internal/store/migrations.go:54-70 | The method, given any arrangement the sort may leave, returns that result |
| `Migrations.ParseMigrationEntries` | internal/store/migrations.go:72-85 | The loop returns every migration file's parse in listing order, or fails at one that does not parse |
| `Migrations.ParseVersionExactly` | internal/store/migrations.go:103-114 | A file name ending in .sql has version v if and only if it is four characters spelling v, at least one, an underscore, a non-empty description and .sql |
| `Migrations.FourDigitsRead` | internal/store/migrations.go:103-114 | In particular every number from 1 to 9999 in four digits is read as that number |
| `Migrations.OneFileParses` | internal/store/migrations.go:72-101 | Directories and other files are skipped; a file fails if its version or text cannot be read or is empty; otherwise it parses to its version, name and query |
| `Migrations.ListingsParse` | internal/store/migrations.go:72-85 | A listing parses to its parts' parses in order, or fails if a part does |
| `Migrations.MigrateExactly` | internal/store/migrations.go:36-52 | On any database with a recorded prefix a run of any build succeeds if and only if the prefix's names are the build's, nothing it does fails, and every pending query executes; then the pending migrations are recorded and applied after the prefix |
| `Migrations.OtherBuildRefused` | internal/store/migrations.go:162-173 | A build that is shorter than what is recorded, or names any recorded migration differently, is refused, and nothing but the existence of the version table changes |
| `Migrations.FailedRunExactly` | internal/store/migrations.go:36-52 | What a failed run leaves, in each case: nothing new, the version table alone, or the migrations up to the first that failed, and that one only if its failed commit was durable |
| `Migrations.RunKeepsPrefix` | internal/store/migrations.go:36-52 | One run, with a failure at any transaction, leaves a prefix recorded and exactly those queries applied; success leaves the whole build |
| `Migrations.AlwaysPrefix` | internal/store/migrations.go:36-52 | So does any sequence of runs by builds that extend one another |
| `Migrations.SuccessIsFreshInstall` | internal/store/migrations.go:36-52 | A successful run after any such sequence equals a fault-free fresh install of its build |
| `Migrations.EditedFileDrifts` | internal/store/migrations.go:162-173 | Only names are compared: a build with edited applied files is accepted; for an engine whose schema remembers every query run, the result is a fresh install's exactly when the applied queries are unchanged |
| `Migrations.Database.ApplyMigration` | internal/store/migrations.go:184-216 | Query and record both take effect or neither, except that a failed commit may prove durable |
| `Migrations.Database.ApplyPending` | internal/store/migrations.go:175-182 | The loop applies the pending migrations in order and stops at the first failure |
| `Migrations.Database.MigrateTo` | internal/store/migrations.go:36-52 | The whole run on the database object is the one the history lemmas are about |
| `LogLines.BoundedIsLongestTail` | internal/container/client.go:127-141 | The result is the longest suffix starting a line with at most that many lines exactly when the bound is positive or the log empty |
| `LogLines.BoundLogLines` | internal/container/client.go:127-141 | For a positive bound the returned text is that longest suffix |
| `LogLines.ZeroLines` | internal/container/client.go:127-141 | For bound zero and a non-empty log it is not |
| `Redaction.RedactIdempotent` | internal/diagnostic/redact.go:36-57 | Redacting twice is redacting once |
| `Redaction.OpenPathsKept` | internal/diagnostic/redact.go:36-57 | Along a path under no sensitive key nothing moves, appears or disappears |
| `Redaction.OpenScalarsKept` | internal/diagnostic/redact.go:36-57 | Every scalar on such a path is kept as it was |
| `Redaction.SensitiveMasked` | internal/diagnostic/redact.go:36-67 | Under a sensitive key at any depth there is only the marker, exactly where there was a value |
| `Redaction.SensitiveExactly` | internal/diagnostic/redact.go:59-67 | A key is sensitive if and only if its lower-cased form, with underscores for hyphens, has one of the eight markers in it, is auth or key, starts with auth_, or ends with _auth or _key |
| `Redaction.MarkedKeysMasked` | internal/diagnostic/redact.go:36-67 | So a field with a marker anywhere in its key's form is masked |
| `Redaction.RedactValue` | internal/diagnostic/redact.go:36-57 | The loops over fresh maps and slices compute that redaction |

## Left out

- LoginLimiter.LoginLimiter.AllowGlobal: tokens are integers counting billionths of a token, which is exact at one token a second; the rounding of float64 tokens is not modelled.
- Rfc3339.ParsesExactly: it says exactly which strings the modelled parser takes, those laid out like a printed instant with any number of fraction digits; zone offsets, comma fractions and one-digit hours, which time.Parse also takes, are not modelled, because no stored text has them.
- Rfc3339.ParseFormat: instants outside years 0 to 9999 are not modelled.
- Sessions.LookupIsHistory: a user deleted by hand, and with it its sessions, is not an event; the program has no such operation.
- Sessions.SessionStore.UpdatePassword: a login that verified the old password before the update may still insert its session after it; only sessions present at the commit are gone.
- AuthService.Service.Login: normalising an address is a function passed in, since address parsing is a library call; timing is not modelled.
- Logins.RunKeeps: what a user lookup returns is the environment's choice at each step, which covers password changes during a login; the session row and the stored hash are not part of this machine but of the service's methods.
- Logins.DerivationBound: neither limiter guards a password change, so its two derivations and its check come on top of the limiters' bounds; the bound counts password changes and does not limit them. The hash made when a user is created on the command line and the dummy hash made once at start are not counted.
- Logins.FailedGuessBound: an account is its address; a password change's check counts for the account of its session.
- Csrf.NewLoginContextValidates: clock readings whose expiry leaves a signed 64-bit second count are excluded.
- PasswordHash.VerifyHashed: the key derivation is any function whose output has the requested length.
- PollerCache.ShownReferencesAreReal: a record's target is the input's; sanitizeDetail and limitText may shorten or mask an identifier that looks like a credential before it is stored.
- PollerRuns.OneDiagnosticPerRun: handlers that write the cache are excluded, since a handler's own failure or success starts a new reference.
- Lifecycle.ShutdownCanFinish: it says a way to return is always open, not that the scheduler takes it; a check that never returns, or a select that never picks cancellation, is not excluded.
- Lifecycle.NoTaskAfterFinish: HTTP handlers still running after a forced close of the server are not background tasks, and the program does not wait for them.
- DockerCheck.Application.FinishOperation: HandleLogs reports failures the same way and marks nothing on success; rendering is left out.
- Registration.Service.Create: input validation is a given result, and timestamps of audit rows are left out.
- ServerList.ServerTable.List: the order is any one SQLite may give for the column; rows written by other programs, whose text might not parse, are not in the table.
- Migrations.Database.MigrateTo: a database engine is a function from schema and query to schema; a failing rollback is not modelled, and restarts do not overlap.
- Redaction.RedactValue: the value is an already parsed tree, and lower-casing is a function passed in, since it is a library call over Unicode.
- LogLines.BoundLogLines: demultiplexing and UTF-8 repair happen before it and are library code.
- HTTP routing, cookies, views, HTMX and CSS: presentation.
- SQLite, the Docker SDK, Argon2, HMAC and SHA-256: library code, present as maps and functions.
- The redaction regular expressions and limitText: engine work or easy length facts.
- Configuration, host name and name validation, error-to-message mappings, user creation and UserForSession: one-branch checks and wrappers.
