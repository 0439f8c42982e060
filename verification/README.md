# Tigo ride sharing: the request, conversation and notification core in Dafny

Tigo is a ride-sharing site. Drivers post trips. Passengers ask to join a
trip. The driver accepts or refuses each request. An acceptance opens a
conversation between the two, and each of these steps leaves a notification
for the other side. This project models that lifecycle, the account routes
around it, and the pure helpers beside it:

- the PostgreSQL adapter's placeholder rewriting;
- the schema's delete cascade;
- the calendar's month grid;
- the navigation bar's badge, dropdown and relative-age label.

The store is one immutable value, `Store.State`. It holds a sequence of rows
per table: users, trips, trip requests, conversations, messages,
notifications and password-reset tokens. A counter `clock` hands out every
new row id and stands for `created_at`. So "newest first" is "largest id
first", and a table's order is its creation order.

Every route handler is a pure function. It returns a `Step`: the HTTP reply
(`Ok(code, value)` or `Err(code, message)`) together with the store
afterwards. A read-only route returns the reply alone. The signed-in user is
an explicit `caller`. The `requireAuth` check that would answer 401 becomes
the precondition `HasUser(s.users, caller)`. A request field the client left
out is the empty string, as in the source's truthiness tests.

The modules follow the source files:

| module | models |
|---|---|
| `Basics` | `Option`, and SQL-like sequence operations (WHERE, COUNT, UPDATE, LIMIT, first match) with their lemmas |
| `Text` | JavaScript `trim`, string `length` in UTF-16 units, case mapping of ASCII letters, `startsWith`, `includes`, decimal rendering of numbers |
| `Store` | the schema: rows, the integrity rules `Valid`, the row-adding helpers the routes share, and the delete cascade |
| `Sql` | `convertQuery`, and the text `run` and `get` send to PostgreSQL |
| `TripOrder` | `ORDER BY date, time` as a proved total preorder, and an insertion sort by it |
| `Trips` | backend/routes/trips.js |
| `Messages` | backend/routes/messages.js |
| `Notifications` | backend/routes/notifications.js |
| `Accounts` | backend/routes/auth.js |
| `Calendar` | public/js/calendar.js |
| `Navbar` | the notification part of public/js/auth.js |

`Store.Valid` is the invariant every reachable store keeps:

- ids strictly increase in every table and all lie below the clock;
- emails are unique and never empty;
- reset tokens are unique;
- there is at most one request per (trip, requester) pair;
- every foreign key points at an existing row.

Each state-changing route has a `...PreservesValid` lemma.

## Model

| member | source | states |
|---|---|---|
| `Sql.ConvertQuery` | backend/database.js:60-64 | the converted query contains no `?` at all |
| `Sql.ConvertQueryNumbers` | backend/database.js:60-64 | the converted query is the text between the placeholders, glued with `$1`, `$2`, ... in left-to-right order, and cutting the query at its `?` loses nothing |
| `Sql.ConvertIsNumbered` | backend/database.js:62-63 | the k-th placeholder, counted from the start value, becomes `$k`; a `?` inside a quoted literal is numbered too |
| `Sql.ConvertWithoutPlaceholders` | backend/database.js:60-64 | a query without `?` passes through unchanged |
| `Sql.JoinSplit` | backend/database.js:62-63 | splitting a query at its placeholders and joining the pieces with `?` gives the query back |
| `Sql.RunText` | backend/database.js:74-79 | `run` sends the query or the query plus ` RETURNING id`, the latter exactly when the trimmed upper-cased query starts with INSERT and the upper-cased query does not contain RETURNING |
| `Sql.RunTextIdempotent` | backend/database.js:74-79 | rewriting an already rewritten query adds nothing |
| `Sql.GetText` | backend/database.js:94 | `get` sends the query followed by ` LIMIT 1` |
| `Store.DeleteTripCascade` | backend/database.js:245-273 | deleting a trip removes the trip, its requests, the conversations opened from those requests and the messages of those conversations; users, notifications and tokens stay |
| `Store.DeleteTripCascadeValid` | backend/database.js:252-272 | after the cascade no foreign key dangles, and every other integrity rule still holds |
| `Text.Utf16Length` | backend/routes/auth.js:342 | `password.length`: at least the number of code points and at most twice it, and equal to it exactly when no code point lies above U+FFFF |
| `Text.Trim` | backend/routes/messages.js:112 | the trimmed text is a slice of the input with only JavaScript white space around it, it neither starts nor ends with white space, and it is empty exactly when the input is all white space |
| `Text.ContainsOccurs` | backend/database.js:76 | the substring scan answers true exactly when the text occurs at some position |
| `TripOrder.TripLeTotal` | backend/routes/trips.js:66 | any two trips are comparable by (date, time) |
| `TripOrder.TripLeTransitive` | backend/routes/trips.js:66 | the (date, time) order is transitive |
| `TripOrder.SortSorted` | backend/routes/trips.js:66 | the sort puts trips in (date, time) order |
| `Trips.ListTrips` | backend/routes/trips.js:28-74 | the listing holds exactly the active trips that pass every supplied filter, each as often as in the table, in (date, time) order. The filters are: departure and arrival as case-insensitive substrings, equal date, a type that also admits `both` and is skipped for `all`, and equal capacity |
| `Trips.CalendarTrips` | backend/routes/trips.js:77-96 | the calendar holds exactly the active trips dated within the range, which defaults to 2000-01-01 to 2100-12-31, in (date, time) order |
| `Trips.GetTrip` | backend/routes/trips.js:99-134 | 404 when the trip is missing. Otherwise `hasRequested` is set exactly when the viewer is signed in and has requested the trip, and the status shown is that request's status |
| `Trips.CreateTrip` | backend/routes/trips.js:137-169 | 201 with the new id; exactly one trip is appended, owned by the caller, with status `active`, defaults `both` and `medium`, an empty description stored as NULL; nothing else changes |
| `Trips.CreateTripPreservesValid` | backend/routes/trips.js:147-158 | posting a trip keeps the store valid |
| `Trips.UpdateTrip` | backend/routes/trips.js:172-207 | 403 with no change unless the trip exists and is the caller's; otherwise that trip's editable columns are rewritten and every other row stays |
| `Trips.UpdateTripPreservesValid` | backend/routes/trips.js:181-198 | editing a trip keeps the store valid |
| `Trips.UpdateKeepsOwnership` | backend/routes/trips.js:181-198 | the driver still owns the trip after editing it |
| `Trips.DeleteTrip` | backend/routes/trips.js:210-224 | 403 with no change unless the trip is the caller's. Otherwise the schema's cascade runs. Exactly that trip leaves the trips and exactly its requests leave the requests. Exactly the conversations opened from those requests go, and exactly the messages of those conversations. Users, notifications, tokens and the clock are unchanged |
| `Trips.DeleteTripPreservesValid` | backend/routes/trips.js:218 | deleting a trip, with the cascade, keeps the store valid |
| `Trips.SubmitRequest` | backend/routes/trips.js:242-295 | four cases. 404 when the trip is missing. 400 when the caller owns it. 400 when the caller already requested it. In all three nothing changes. Otherwise 201, one `pending` request is appended for (trip, caller), and one `request_received` notification goes to the driver, linking to `/trip-detail.html?id=<trip>`; nothing else changes |
| `Trips.SubmitCreatesOnePending` | backend/routes/trips.js:264-288 | after a successful submit there is exactly one request for (trip, caller), it is pending, and the number of `request_received` notifications grew by one |
| `Trips.SubmitTwiceConflicts` | backend/routes/trips.js:264-270 | a second submit for the same trip is refused as a duplicate |
| `Trips.SubmitPreservesValid` | backend/routes/trips.js:264-275 | submitting keeps the store valid, including at most one request per (trip, requester) |
| `Trips.ListRequests` | backend/routes/trips.js:298-319 | 403 unless the trip is the caller's; otherwise one row per request for the trip, exactly those requests, each with its requester's name |
| `Trips.ListRequestsNewestFirst` | backend/routes/trips.js:311 | in a valid store the requests come newest first |
| `Trips.Respond` | backend/routes/trips.js:322-376 | 403 with no change unless the request exists and its trip is the caller's. Otherwise the supplied status, whatever it is, is written to that request alone. One notification goes to the requester, of kind accepted exactly when the status is `accepted`, linking to `/messages.html`. Its title is "Demande acceptée !" or "Demande refusée". Its body names the owner, the decision and the trip's route. A conversation (request, caller, requester) is appended exactly when the status is `accepted`. Users, trips, messages and tokens are unchanged |
| `Trips.RespondAgainAllowed` | backend/routes/trips.js:336-341 | nothing stops the driver from answering the same request again |
| `Trips.AcceptAddsConversation` | backend/routes/trips.js:364-369 | each acceptance adds one conversation for the request |
| `Trips.AcceptTwiceTwoConversations` | backend/routes/trips.js:364-369 | accepting the same request twice leaves two more conversations for it |
| `Trips.RespondPreservesValid` | backend/routes/trips.js:341-369 | responding keeps the store valid |
| `Messages.FindMine` | backend/routes/messages.js:53-56 | the lookup finds a conversation exactly when one with that id has the caller as a participant |
| `Messages.UnreadCount` | backend/routes/messages.js:139-155 | the badge is zero exactly when no message in any of the caller's conversations is unread and from the other side |
| `Messages.LastMessageIsNewest` | backend/routes/messages.js:25-26 | the last message shown is the newest of its conversation |
| `Messages.ViewOf` | backend/routes/messages.js:20-27 | a listed row names the other participant, its unread count is the number of the conversation's unread messages from the other side, and its last message is the newest one |
| `Messages.ListConversations` | backend/routes/messages.js:13-42 | one row per conversation the caller takes part in, exactly those conversations, each row as `ViewOf` describes. Conversations with messages are ordered by latest message, newest first |
| `Messages.UnreadCountIsSum` | backend/routes/messages.js:142-148 | in a valid store the badge equals the sum of the unread counts of the caller's conversations |
| `Messages.OpenConversation` | backend/routes/messages.js:45-85 | 403 with no change unless the caller takes part in the conversation. Otherwise exactly the other side's messages in it become read and everything else stays. The history holds exactly that conversation's messages, all read or the caller's own |
| `Messages.OpenIdempotent` | backend/routes/messages.js:62-65 | opening a conversation again changes nothing more and answers the same |
| `Messages.OpenClearsUnread` | backend/routes/messages.js:62-65 | after opening, the conversation has nothing unread for the caller, and the caller's badge drops by exactly its former unread count |
| `Messages.HistoryOldestFirst` | backend/routes/messages.js:68-74 | in a valid store the history runs oldest first |
| `Messages.OpenPreservesValid` | backend/routes/messages.js:62-65 | opening keeps the store valid |
| `Messages.Preview` | backend/routes/messages.js:121 | the preview is the content itself when it has at most 50 characters, else its first 50 characters followed by `...` |
| `Messages.SendMessage` | backend/routes/messages.js:88-136 | blank content gives 400, checked before the 403 for a non-participant; neither changes anything. Otherwise 201, one message is appended with the trimmed content, unread, from the caller. One `new_message` notification goes to the other participant, with the sender's name and the preview of the untrimmed content; nothing else changes |
| `Messages.SendRaisesOthersUnread` | backend/routes/messages.js:110-112 | a sent message raises the other participant's badge by one and leaves the sender's badge alone |
| `Messages.SendPreservesValid` | backend/routes/messages.js:110-121 | sending keeps the store valid |
| `Notifications.List` | backend/routes/notifications.js:13-28 | at most 50 rows, all the caller's, in reverse creation order |
| `Notifications.ListIsNewest` | backend/routes/notifications.js:16-21 | in a valid store the list is strictly newest first, and any of the caller's notifications left out is older than every one listed |
| `Notifications.UnreadCount` | backend/routes/notifications.js:31-44 | zero exactly when the caller has no unread notification |
| `Notifications.MarkRead` | backend/routes/notifications.js:47-60 | always answers success; only a row matching both the id and the caller becomes read, and nothing else changes |
| `Notifications.MarkReadCount` | backend/routes/notifications.js:50-55 | the caller's unread count drops by the number of unread rows matching the id |
| `Notifications.MarkReadIdempotent` | backend/routes/notifications.js:50-53 | marking the same notification read again changes nothing and answers the same |
| `Notifications.MarkReadOnlyOwn` | backend/routes/notifications.js:50-53 | another user's unread count and list are untouched |
| `Notifications.MarkAllRead` | backend/routes/notifications.js:63-75 | always answers success; every one of the caller's notifications becomes read, and no other row changes |
| `Notifications.MarkAllReadClears` | backend/routes/notifications.js:66-68 | afterwards the caller has nothing unread, other users keep their counts and lists, and a second read-all changes nothing |
| `Notifications.Delete` | backend/routes/notifications.js:78-90 | always answers success; exactly the rows matching both the id and the caller are removed, and no other table changes |
| `Notifications.DeleteOnlyOwn` | backend/routes/notifications.js:81-83 | the notification is gone from the caller's list, and every other user's list is as it was |
| `Notifications.NotificationRoutesPreserveValid` | backend/routes/notifications.js:47-90 | the three writing routes keep the store valid |
| `Accounts.UserByEmail` | backend/routes/auth.js:53 | the lookup finds a user exactly when some account holds the email |
| `Accounts.Register` | backend/routes/auth.js:42-82 | two refusals with 400, changing nothing: a missing email, password or name, and an email already registered. Otherwise 201 with the new id, and exactly one user is appended with the hashed password and the default avatar |
| `Accounts.RegisterPreservesValid` | backend/routes/auth.js:62-67 | registering keeps the store valid, including unique emails |
| `Accounts.RegisterTwiceRefused` | backend/routes/auth.js:53-56 | registering the same email again is refused |
| `Accounts.Login` | backend/routes/auth.js:85-123 | 400 when email or password is missing. The same 401 for an unknown email as for a wrong password. Success names an account with that email whose password verifies |
| `Accounts.LoginIffCredentials` | backend/routes/auth.js:96-107 | with unique emails, login succeeds exactly when an account with that email has that password, and then answers its id |
| `Accounts.RegisterThenLogin` | backend/routes/auth.js:62-107 | a fresh account can log in with the password it registered with |
| `Accounts.UpdateProfile` | backend/routes/auth.js:156-222 | 400 with no change when a new email belongs to another user. `emailChanged` is set exactly when a supplied email differs from the current one. Only the caller's row changes: name and phone always, email only if supplied, password only if not blank, photo only if a file came. The reply carries the caller's id and the new email, name, phone and photo, and no credential |
| `Accounts.UpdateProfilePreservesValid` | backend/routes/auth.js:170-198 | a profile update keeps the store valid |
| `Accounts.ProfileEmailsUnique` | backend/routes/auth.js:170-178 | emails stay unique after a successful profile update |
| `Accounts.ProfilePasswordLogin` | backend/routes/auth.js:188-192 | after a profile update that set a password, the caller logs in with it |
| `Accounts.ForgotPassword` | backend/routes/auth.js:253-330 | 400 without an email. The same 200 reply whether or not the account exists. For an existing account exactly one unused token is appended, expiring an hour after `now` |
| `Accounts.ForgotHidesAccounts` | backend/routes/auth.js:263-268 | two stores answer a forgot-password request identically, whoever holds the email |
| `Accounts.ForgotPreservesValid` | backend/routes/auth.js:271-278 | issuing a token keeps the store valid, tokens unique |
| `Accounts.ResetLengthInUtf16Units` | backend/routes/auth.js:342-344 | the length rule counts as `password.length` does: three emoji pass it, five ASCII letters are refused with 400 |
| `Accounts.ResetPassword` | backend/routes/auth.js:333-372 | three refusals with 400, changing nothing: a missing token or password, a password shorter than 6 UTF-16 units (an emoji counts two), and a token that is not unused and unexpired. Otherwise that token's user gets the new password, that token is marked used, and nothing else changes |
| `Accounts.ResetSingleUse` | backend/routes/auth.js:347-365 | a token that worked once is refused the second time |
| `Accounts.ForgotThenReset` | backend/routes/auth.js:271-365 | a token redeemed within the hour sets the password, after which the account logs in with it; after the hour it is refused |
| `Accounts.ResetPreservesValid` | backend/routes/auth.js:360-365 | a reset keeps the store valid |
| `Calendar.MondayOffset` | public/js/calendar.js:65-66 | the Monday-based column of the first is in 0..6, and one past it is the Sunday-based weekday modulo 7 |
| `Calendar.RenderGrid` | public/js/calendar.js:50-97 | the grid has exactly 42 cells. The first `startDay` cells are the previous month's last days in ascending order. Then come 1 to the month's length. Then the next month from 1. At least five next-month days always close it |
| `Calendar.DayUnderItsWeekday` | public/js/calendar.js:65-88 | every day of the month lands in the column of its own weekday |
| `Calendar.DayTrips` | public/js/calendar.js:104-105 | a cell's trips are exactly those whose date string equals the cell's |
| `Calendar.DayElement` | public/js/calendar.js:99-130 | at most 3 dots, the day's first trips in order. `+n autres` appears exactly when the day has more than 3 trips, with n the rest. The cell is clickable exactly when the day has a trip |
| `Calendar.DotsAreThatDay` | public/js/calendar.js:111-116 | a trip of that day is either drawn or counted in the remainder |
| `Navbar.Badge` | public/js/auth.js:85-93 | the badge is hidden exactly when nothing in the fetched list is unread, and otherwise shows how many are |
| `Navbar.BadgeAgainstUnreadCount` | public/js/auth.js:82-93 | the badge never exceeds the caller's unread count, and matches it when the caller has at most 50 notifications |
| `Navbar.Seconds` | public/js/auth.js:174 | the difference in whole seconds, rounded down, also for a stamp in the future |
| `Navbar.TimeAgo` | public/js/auth.js:171-181 | below 60 s, negatives included, the label is just now. Below an hour it gives whole minutes in 1..59, below a day whole hours in 1..23, below a week whole days in 1..6. After that it gives the short date |
| `Navbar.TimeAgoMonotone` | public/js/auth.js:174-180 | as the clock moves on, a label only ever moves to an older bucket or a larger number |
| `Navbar.AgoTextInjective` | public/js/auth.js:176-179 | two relative labels that read the same stand for the same age |
| `Navbar.IconsDistinct` | public/js/auth.js:108-111 | the four notification kinds get four different icons |
| `Navbar.Dropdown` | public/js/auth.js:104-119 | at most the first ten notifications of the fetched list, each with its kind's icon and unread flag |
| `Navbar.DropdownIsNewest` | public/js/auth.js:106 | in a valid store the dropdown shows the caller's newest notifications, strictly newest first |

## Left out

- HTTP plumbing is not modelled: Express routing, sessions, cookies and CORS. The caller is an explicit user id, and `requireAuth`'s 401 is a precondition.
- Route handlers' catch-all 500 replies for database failures are not modelled. The store never fails. Two 500s that the schema itself raises are modelled. A profile update without a name is refused by the NOT NULL `name` column. A reset token that collides with a stored one is refused by the UNIQUE `token` column. The NOT NULL trip columns are not modelled; see the lines on Trips.CreateTrip and Trips.UpdateTrip below.
- bcrypt is an abstract hash with a matching `Verify`.
- Reset tokens come from the random generator. Here the token is a parameter, and `TokenShape` states its shape (64 letters and digits). Sending the reset email is not modelled.
- Multer uploads are not modelled. An upload is the stored file name or nothing.
- Concurrency is left out: each handler is one atomic step. The check-then-insert race on requests and the race between two responses are not modelled.
- Time stamps are ids from one strictly increasing counter, so two rows never share a `created_at`.
- Accounts.Register, Trips.CreateTrip: the id in the 201 reply comes from the one counter shared by all tables. The source numbers each table with its own AUTOINCREMENT sequence. So after one registration on an empty store, the first trip is numbered 2 here and 1 in the source. Only the ordering of ids within a table is modelled, and that is what the listings rely on.
- The reset route's `expires_at` comparison is an integer comparison of milliseconds. The source compares ISO strings and `toISOString()` values.
- SQL JOINs are lookups. In a valid store every joined row exists. A row whose join partner is missing would drop out of the SQL result but is shown with empty fields here.
- `LIKE` wildcards typed into the trip filters are not modelled. A filter is a plain substring match after ASCII lower-casing. Non-ASCII letters are compared as they are.
- Messages.ListConversations: the place of conversations without any message is left open. SQLite puts them last and PostgreSQL puts them first under `DESC`.
- Trips.CreateTrip: a departure, arrival, date or time missing from the form reaches a NOT NULL column, and the source answers 500. The model stores the empty string it receives.
- Trips.UpdateTrip: a field missing from the form is written as the empty string the model receives. In the source, a missing departure, arrival, date or time reaches a NOT NULL column of `trips`. The UPDATE then fails, and the route answers 500 with nothing changed. A missing description, availability_type or capacity is written as NULL. The description is always written.
- Trips.SubmitRequest: the notification link renders the numeric trip id. The source echoes the path parameter as typed, so `007` would stay `007`.
- Trips.Respond: a missing `status` field is not modelled. The source writes NULL and answers `Request undefined`.
- Messages.Preview: the 50-character cut counts code points. JavaScript's `substring` counts UTF-16 units, which differ for characters outside the Basic Multilingual Plane.
- Calendar.RenderGrid: the weekday of the first and both month lengths are inputs, not computed from JavaScript's Date. The "today" highlight is left out because it depends on the clock.
- Calendar.DayElement: the cell's date string is an input. `toISOString` depends on the time zone.
- Navbar.TimeAgo: created_at is already in milliseconds; parsing the stored date string is not modelled. The short-date fallback is a parameter of the label, because it depends on the browser's locale tables.
- Clicking a notification is left out: it calls the mark-read route, which is modelled, then navigates.
- Sql.RunText: upper-casing is modelled for the ASCII letters only. JavaScript's `toUpperCase` also maps letters such as `ı` to `I` and `ſ` to `S`, so a query spelled with them would be rewritten by the source and not by the model. Every query the routes pass to `run` is ASCII. Only the text sent is modelled. Whether `run` reports `lastInsertRowid` or a change count depends on the rows PostgreSQL returns.
- Routes outside the request lifecycle are left out: logout, `GET /me`, `GET /check` and `GET /user/my-trips`. They only read the session or list the caller's trips.
- Deleting a user is left out. No route does it; the schema would cascade it.
- Map coordinates, DOM rendering, polling and the SQLite and PostgreSQL connection code are left out.

The respond route writes whatever `status` it receives. Its only
documentation is the comment that it is 'accepted' or 'rejected', and it does
not check that the request is still pending. The model follows the route:
`Trips.RespondAgainAllowed` and `Trips.AcceptTwiceTwoConversations` state the
consequence. A request that does not exist gets the same 403 as another
user's request, since the route's join finds no row for it.
