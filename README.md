# Workout tracker: a verified model of its core

This project is a Dafny model of the core of the workout tracker HTTP service. Users sign up and log in. Login issues a signed token. A bearer-token middleware turns that token into a user id in the request context. Authenticated users create, read, update and delete their workouts and request a report over a date range. A workout is a header (owner, name, description, schedule, timestamps) with an ordered list of line items (exercise, sets, reps, weight, notes).

The model has these layers:

- **Model** (`model_workout.dfy`): the `Workout` object, built by `NewWorkout` and extended in place by `AddExercise`.
- **Repository** (`repository_workout.dfy`): the store as a class over the `workouts` and `workout_exercises` tables and their id sequences.
  - Create and Update are transactions: a snapshot is taken at the start, and any failing statement or failing commit restores it.
  - Each failure point is an input (`Fault`).
  - How a query's result set arrives is an input (`Delivery`): complete, not at all because the query fails, or cut off after its first n rows.
  - Id sequences are not rolled back, as in the database.
- **Report** (`report.dfy`): the fold of the report query's rows into the report value.
- **Dates** (`dates.dfy`): the `2006-01-02` date layout and the midnight each date stands for.
- **Sorting** (`sorting.dfy`): a stable sort used as the model of `ORDER BY`.
- **Jwt** (`jwt.dfy`): token generation, the validator with its algorithm gate, and the context lookup.
- **Middleware** (`middleware_auth.dfy`): the Authorization header check.
- **Strconv** (`strconv.dfy`): `Atoi`, as used to read workout ids from query strings.
- **WorkoutHandler** (`handler_workout.dfy`): the workout handlers, as methods returning the reply they write.
- **AuthHandler** (`handler_auth.dfy`): the sign-up and login handlers, with a small users table.
- **Http** (`http.dfy`): the reply type and the status codes.

Where the specification of the service and its code disagree, the model follows the code, with one exception (the last item below):

- A workout id with no row makes the store's `GetByID` return no workout and no error. The Update and Delete handlers then dereference the missing workout. The model answers `Panic` here, not 404.
- Unparseable report dates are answered with 500, not 400.
- The report's end bound is midnight at the start of the end date. Workouts later on that day are left out (`Repository.EndDayExcluded`).
- Workouts without a line item in range never appear in a report, because the report query uses an inner join (`Repository.ReportRowsIds`).
- The token validator accepts tokens under every HMAC algorithm (HS256, HS384 and HS512), not only the HS256 it issues.
- The Update handler writes back the updated-at time it fetched, so an update never changes a workout's updated-at column.
- For a workout without line items, the code answers with an error (see Findings). The specification says an empty list. The store in this model uses the corrected lookup, which agrees with the specification, and the handlers inherit it (see Left out).

## Model

| member | source | states |
|---|---|---|
| Model.Workout.New | model/workout.go:26-36 | A new workout has id 0, the given owner, name, description and schedule, no line items, and created-at equal to updated-at (one clock reading). |
| Model.Workout.AddExercise | model/workout.go:38-46 | Appends exactly one line item built from the arguments, with id and workout id 0. The earlier items stay as a prefix and every scalar field is unchanged. |
| Model.Workout.Zero | repository/workout.go:75 | The zero workout: id and owner 0, empty name and description, zero times and no line items. |
| Model.Workout.Scan | repository/workout.go:79-83 | Scanning a row's workout columns sets every scalar field to the row's values and leaves the line items alone. |
| Dates.ParseDate | repository/workout.go:176-183 | A date string parses iff it is exactly `YYYY-MM-DD` naming a real calendar day (month 1-12, day within the month, 29 February only in leap years). The value is a midnight, i.e. a multiple of 86400 seconds. |
| Dates.ParseFormat | repository/workout.go:176-183 | Round trip: parsing the `YYYY-MM-DD` spelling of any valid day gives that day's midnight. |
| Dates.MidnightMonotone | repository/workout.go:186-193 | An earlier calendar day has a strictly earlier midnight, so the report bounds follow calendar order. |
| Sorting.SortBy | repository/workout.go:191 | The sorted rows are a permutation of the input (same multiset), ordered by the key. |
| Report.Summarize | repository/workout.go:199-239 | The report echoes both date strings and counts one exercise per row. It has one entry per distinct workout id, holding that workout's items in row order under the name and date of its first row. |
| Report.ReportCounts | repository/workout.go:214-229 | In any report, 0 <= total workouts <= total exercises, both are zero together, and every listed workout has at least one item. |
| Repository.WorkoutStore.Create | repository/workout.go:20-56 | Commits iff no step of the 1 + n statement transaction fails. On commit, the new row is stored under a fresh id that is written into the workout, its items get fresh ids in order, and no other workout's items change. On failure both tables are as before. |
| Repository.WorkoutStore.InsertItems | repository/workout.go:42-53 | The item inserts succeed iff no insert statement fails and the parent workout exists. Each item is then appended with consecutive fresh ids under that workout. |
| Repository.WorkoutStore.GetByID | repository/workout.go:58-94 | A failing query gives an error and no workout. Otherwise there is no error, and no workout iff the id has no row or the result set breaks off before its first row. A returned workout is fresh, has the row's columns, and holds the leading line items that arrived, in table order, each with workout id 0. A complete result set gives all of that workout's items. |
| Repository.LeftJoin | repository/workout.go:59-64 | The join is empty iff no workout has the id. Every joined row carries that id and that workout's columns. |
| Repository.GetByIDRows | repository/workout.go:58-91 | Folding the LEFT JOIN rows that arrive with the `id != 0` filter gives the workout's leading items, as many as arrived. The empty right side adds nothing and no real item is dropped. |
| Repository.FoldAsWritten | repository/workout.go:73-91 | The loop as written succeeds iff no joined row has a NULL right side. It then yields exactly the rows' real items (`id != 0`) in row order. |
| Repository.EmptyWorkoutFailsAsWritten | repository/workout.go:79-86 | As written, looking up an existing workout without line items fails, although the corrected fold gives the empty list. |
| Repository.WorkoutStore.GetByUserID | repository/workout.go:96-123 | An error iff the query fails. Otherwise one fresh workout per arriving row of the user's workouts, in the order `ByUser` gives, with the row's columns and no line items. A result set that breaks off gives the leading part of the list. |
| Repository.ByUser | repository/workout.go:97-101 | A record appears exactly once if it is one of the user's workouts with an id in 1..n, and not at all otherwise. The records run from the latest scheduled date to the earliest. |
| Repository.ScanRecords | repository/workout.go:109-120 | The scan loop yields one fresh workout per leading row, in row order, each with the row's columns and no line items. |
| Repository.ByUserCount | repository/workout.go:97-101 | The user's listing has exactly as many rows as the user owns workouts among ids 1..n, and every row carries one of those ids. |
| Repository.UserRowsCount | repository/workout.go:97-99 | Before sorting, the `WHERE user_id = $1` selection holds one row per workout the user owns. |
| Repository.WorkoutStore.Update | repository/workout.go:125-166 | Commits iff no step of the 2 + n statement transaction fails and the items have a parent. On commit, only the workout's name, description, schedule and updated-at change. Its items become exactly the new ones, with fresh ids, and other workouts are untouched. On failure both tables are as before. |
| Repository.WorkoutStore.Delete | repository/workout.go:168-172 | On success the workout's row and its line items are gone and nothing else changes. On failure nothing changes. |
| Repository.WorkoutStore.GenerateReport | repository/workout.go:174-242 | A bad start date fails first, then a bad end date, then a failing query. Otherwise the report succeeds and summarizes the rows that arrived: the leading part of the user's joined rows between the two midnights, ordered by schedule, or all of them when the result set is complete. |
| Repository.JoinRows | repository/workout.go:186-190 | At most one row per line item. Every row belongs to one of the user's workouts scheduled within the bounds, and carries that workout's name and date. Which items give rows, and their columns, is `Repository.JoinRowsItems`. |
| Repository.ReportRows | repository/workout.go:186-192 | The ordered rows are a permutation of the joined rows, ascending by scheduled date, each within range. |
| Repository.Project | repository/workout.go:187 | The report columns of line items: one per item, in order, with its exercise, sets, reps and weight. |
| Repository.JoinRowsItems | repository/workout.go:186-190 | The inner join gives every line item of an in-range workout of the user exactly one row carrying its exercise, sets, reps and weight, in table order. Any other workout gets no row. |
| Repository.ReportRowsItems | repository/workout.go:186-192 | After ordering, each in-range workout of the user still has exactly its line items' columns, up to order, and any other workout has none. |
| Repository.ReportEntryItems | repository/workout.go:186-239 | In a report over the complete rows, an in-range workout of the user with line items is listed with exactly those items, up to order, so with as many exercises as it has line items. |
| Report.ItemsForPermutation | repository/workout.go:199-239 | Rows that are a permutation of each other give every workout the same items, up to order. |
| Repository.ReportRowsIds | repository/workout.go:186-192 | A workout is in the report rows iff it is the user's, is scheduled within the bounds (both inclusive), and has at least one line item. |
| Repository.EndDayExcluded | repository/workout.go:180-193 | A workout scheduled after midnight on the end date, within that day, is missing from the report. |
| Jwt.KeyFor | util/jwt.go:26-31 | The key function hands out the secret exactly for HMAC signing methods. |
| Jwt.Parse | util/jwt.go:26-35 | The parser reports no error exactly when the token is valid, and then returns the decoded token. |
| Jwt.ValidateJWT | util/jwt.go:25-43 | A parser error comes back as user id 0 with that same error, never as a panic. Validation panics iff the parser accepts the token and its user_id claim is not a number. |
| Jwt.ValidateAccepts | util/jwt.go:25-43 | Validation returns a user id without error iff the token uses an HMAC algorithm, was signed with the secret, is unexpired, and carries that numeric user id. |
| Jwt.FallThroughUnreachable | util/jwt.go:37-42 | The fall-through "invalid token" error is never returned. |
| Jwt.NonHmacRefused | util/jwt.go:27-29 | A token under a non-HMAC algorithm is refused with an error and user id 0, whatever its signature. |
| Jwt.AnyHmacAccepted | util/jwt.go:27-30 | HS384 and HS512 tokens signed with the secret are accepted, although only HS256 tokens are issued. |
| Jwt.MissingUserIdPanics | util/jwt.go:37-39 | A valid token whose user_id is missing or not a number makes the validator panic. |
| Jwt.GenerateJWT | util/jwt.go:16-23 | Round trip: an issued token is HS256, and validates to the user it was issued for under the same secret at every time up to 24 hours after issue. |
| Jwt.ExpiryMonotone | util/jwt.go:19 | The library's expiry rule only turns from current to expired as time passes: a token current at some time was current at every earlier time. |
| Jwt.GeneratedExpires | util/jwt.go:19 | More than 24 hours after issue, a generated token is refused as expired. |
| Jwt.GeneratedNeedsSecret | util/jwt.go:22 | A generated token is refused, with a signature error, under any other secret. |
| Jwt.GetUserIDFromContext | util/jwt.go:45-51 | Succeeds iff the context holds an int under "userID", and then returns it. Otherwise it returns 0 with the unauthorized error. |
| Jwt.ContextRoundTrip | util/jwt.go:45-51 | Reading the user id back from a context where one was just stored gives that id. |
| Middleware.Split | middleware/auth.go:20 | Splitting on a separator gives one more part than there are separators, and no part contains the separator. |
| Middleware.JoinSplit | middleware/auth.go:20 | Joining the parts of a split with the separator gives back the original string. |
| Middleware.TwoParts | middleware/auth.go:20-21 | A header splits into exactly two parts iff it holds exactly one space, and it is then scheme, space, token. |
| Middleware.ToLower | middleware/auth.go:21 | Same length. Every ASCII capital becomes its lower-case letter, no capital remains, and every other character is unchanged. |
| Middleware.SchemeAccepted | middleware/auth.go:21 | The scheme test accepts exactly the six-letter spellings of "bearer" in any mix of letter case. |
| Middleware.Authenticate | middleware/auth.go:11-36 | An empty header is refused as missing. A non-empty header with one space and a scheme other than bearer is refused as an invalid header. A bearer token that fails validation is refused as an invalid token, one whose validation panics crashes the request, and one that validates is forwarded with the old context plus its user id. Conversely, a forwarded request has exactly one space in its header, a bearer scheme and a token that validates. Every refusal is 401. |
| Middleware.BadShapeRefused | middleware/auth.go:20-24 | A header with no space or several spaces is refused as an invalid header before any token is looked at. |
| Middleware.IssuedTokenForwarded | middleware/auth.go:20-33 | "Bearer token", with a token issued less than a day earlier under the same secret, is forwarded, and the handler behind reads back the token's user. |
| Middleware.ForwardedHasUser | middleware/auth.go:32-33 | Every forwarded request carries a user id that the handlers can read. |
| Strconv.Atoi | handler/workout.go:65-69 | A string is accepted iff it is an optional sign followed by at least one digit and nothing else, and the number it spells lies within the 64-bit range. The result is that number. |
| Strconv.AtoiLeadingZero | handler/workout.go:65-69 | A leading zero or a leading '+' is accepted and does not change the result ("007" and "+7" read as 7). |
| Strconv.AtoiLoneSign | handler/workout.go:65-69 | A sign on its own is rejected. |
| Strconv.AtoiOutOfRange | handler/workout.go:166-171 | A digit string beyond the 64-bit range is rejected with or without a sign; "-9223372036854775808" is accepted as the minimum. |
| Strconv.AtoiItoa | handler/workout.go:166-171 | Every 64-bit int written in decimal reads back as itself. |
| Strconv.AtoiRejects | handler/workout.go:166-171 | The empty id, and an id with a character other than a sign or digit, are rejected. |
| WorkoutHandler.MakeLines | handler/workout.go:139-148 | The array filled position by position holds exactly the body's line items in body order. |
| WorkoutHandler.Create | handler/workout.go:23-61 | 401 without a caller, 400 with the decoder's text for a bad body, 500 when the store fails, and 201 otherwise. On 201, the stored workout is the caller's, with the body's fields and line items in body order. On any other reply both tables are unchanged. |
| WorkoutHandler.GetByID | handler/workout.go:63-79 | A malformed id gives 400 and a failed query 404. Otherwise the reply is 200. The workout is absent exactly when no row has the id or no row arrived, and otherwise holds the leading line items that arrived. |
| WorkoutHandler.GetByUser | handler/workout.go:81-97 | 401 without a caller and 500 when the query fails. Otherwise 200 with the caller's workouts, newest first, as many as arrived. |
| WorkoutHandler.Update | handler/workout.go:99-157 | Tables change only if the caller owns the workout. A missing workout, or a lookup that breaks off before its first row, panics. A foreign workout gives 401, and a failed query gives 404. The reply is 200 iff the owner's transaction commits; then only that workout's name, description, schedule and items change. |
| WorkoutHandler.Save | handler/workout.go:136-156 | After the ownership check, the stored row takes the body's name, description and schedule, keeps its updated-at time, and the workout's items become the body's. On failure, 500 and nothing changes. |
| WorkoutHandler.Delete | handler/workout.go:159-191 | Tables change only if the caller owns the workout. A bad id gives 400 without touching the store. A missing workout, or a lookup that breaks off before its first row, panics. The reply is 204 iff the owner's delete succeeds, and then exactly that workout and its items are gone. |
| WorkoutHandler.GenerateReport | handler/workout.go:193-215 | 401 without a caller. 200 iff both dates parse and the query succeeds, and then the report summarizes the caller's rows that arrived. Every other failure, bad dates included, is 500. |
| AuthHandler.FindByUsername | repository/user.go:31-46 | A lookup finds a stored user with that name, or reports that none has it. |
| AuthHandler.UserStore.Create | repository/user.go:18-29 | On success the user is appended under the next generated id, which exceeds every existing id. On failure the table is unchanged. |
| AuthHandler.SignUp | handler/auth.go:22-49 | 400 with the decoder's text for a bad body, and 500 when the user cannot be built or saved (table unchanged). Otherwise 201 with exactly the new user appended. |
| AuthHandler.Login | handler/auth.go:51-83 | A token is issued iff the body decodes, the lookup finds the user and the password checks. It is then the 24-hour token for that user's id. Every other decoded request gets the same 401 "Invalid credentials". |
| AuthHandler.CredentialFailuresAlike | handler/auth.go:62-71 | An unknown user name and a known one with a wrong password get identical replies. |
| AuthHandler.LoginTokenValidates | handler/auth.go:73-82 | The token a login issues validates to the logged-in user's id for a day under the same secret. |
| AuthHandler.SignUpThenLogin | handler/auth.go:34-73 | After a user is stored under a fresh name, logging in with a password that checks yields a token for the stored id, and logins under other names are unaffected. |

## Left out

- Weights are whole numbers. The source uses float64, and floating point is not modelled.
- Times are whole seconds in UTC. Time zones, sub-second precision and time.Time's own encoding are not modelled.
- Clock readings are inputs. `NewWorkout` reads the clock twice, and the model uses a single reading for both timestamps (`Model.Workout.New`).
- JSON decoding and encoding are not modelled. A body arrives decoded, or as the decoder's error text. Response bodies are returned as values, and encoder errors are ignored as in the code.
- The SQL engine is replaced by operations on in-memory tables. Failing connections, queries and transaction statements become injectable flags and faults (`Fault`, and the `QueryError` delivery).
- A result set that breaks off while it is read is the `CutAfter` delivery. The code never checks `rows.Err`, so the rows read so far are used as if they were complete. Other `rows.Scan` failures (beyond the NULL case under Findings) and `rows.Close` errors are not modelled.
- Repository.WorkoutStore.GetByID: the query has no ORDER BY, so the order of the joined rows, and with it the order of the line items, is the engine's choice. The model takes table order.
- Repository.WorkoutStore.GenerateReport: all rows of one workout tie under `ORDER BY w.scheduled_for`, and so do workouts on the same date. The engine orders ties as it likes. The model keeps join order among ties, so the order of each workout's items and of same-day workouts is the model's choice, and a cut-off result set is cut at a position that depends on it.
- WorkoutHandler.GetByID: for an existing workout with no line items, the code answers 404, because its lookup fails (see Findings). The model's store uses the corrected lookup and answers 200 with the workout. The `QueryError` delivery stands for the code's behaviour in that case.
- WorkoutHandler.Update: for an existing workout with no line items, owned or not, the code answers 404 and changes nothing, because the lookup fails before the ownership check. The model answers 200 and updates the workout for the owner, and answers 401 to anyone else. The `QueryError` delivery stands for the code's behaviour in that case.
- WorkoutHandler.Delete: for an existing workout with no line items, owned or not, the code answers 404 and deletes nothing, because the lookup fails before the ownership check. The model deletes the workout and answers 204 for the owner, and answers 401 to anyone else. The `QueryError` delivery stands for the code's behaviour in that case.
- Transaction isolation and concurrent requests are not modelled. Each request runs alone.
- Repository.WorkoutStore.Delete: the foreign key from line items to workouts and the cascading delete are schema assumptions. The schema is not part of this model.
- Repository.ByUser: ties in `ORDER BY scheduled_for` are left to the database engine. The model's stable sort keeps table order among equals, and the contract only promises the order of unequal dates.
- Repository.WorkoutStore.GetByUserID: with no rows, the code returns a nil slice, which encodes as JSON null. The model returns an empty sequence.
- Jwt.ValidateJWT: a fractional `user_id` claim is truncated by the int conversion in the code. The model has only whole-number claims.
- Jwt.ValidateJWT: claims other than `exp` and `user_id` (nbf, iat) are not modelled.
- Tokens are abstract: the compact serialization, base64url and the HMAC computation are not modelled. A signature verifies exactly under the key it was made with, and the decoding step is a function parameter.
- Jwt.GenerateJWT: the signing error path cannot occur for HS256 with a byte-string key and is not modelled. The same holds for the "Failed to generate token" reply of Login.
- Middleware.ToLower: lower-casing is modelled on ASCII letters only. Other Unicode case mappings are not modelled.
- Middleware.Authenticate: `Header.Get` canonicalization and repeated Authorization headers are not modelled. The header value is an input.
- model/user.go is not part of this model. `NewUser` (password hashing, timestamps) and `CheckPassword` are function parameters, and bcrypt is not modelled.
- AuthHandler.FindByUsername: with duplicate user names, the row the database returns is engine-chosen. The model takes the first in insertion order.
- Routing (router/router.go), the exercise catalogue (handler, service and repository for exercises) and the service layer are outside the modelled core. So are the user lookup by id and the logging calls.
- Go's 64-bit int limits are modelled only where the code checks them (`Strconv.Atoi`). Elsewhere, ids and counts are unbounded integers.

## Findings

| source | as written | input that shows it | evidently intended | confidence | as-written member | corrected member |
|---|---|---|---|---|---|---|
| repository/workout.go:79-90 | For a workout with no line items, the LEFT JOIN yields one row whose line-item columns are NULL. database/sql refuses to scan NULL into the int and string fields, so GetByID returns an error (404 at the handlers), and the `we.ID != 0` check never sees that row. | Create a workout with `"exercises": []`, then look it up by id. | The workout comes back with an empty line-item list. | not executed; follows from database/sql's NULL scanning rules | Repository.EmptyWorkoutFailsAsWritten | Repository.WorkoutStore.GetByID |
