# Exercise tracker: log query and user store

This project models the core of a small exercise-tracker REST service. Users are stored as documents in a `users` collection. Each document holds a username and an embedded, ordered list of exercises. An exercise has a description, a duration and a date. The service has four handlers:

- create a user;
- push an exercise onto a user's list;
- query a user's log;
- list all users.

A log query keeps the exercises dated on or after an optional `from` and on or before an optional `to`, then cuts the list with `slice(0, limit)` when a `limit` is given. The reply's `count` is the length of the returned log. Every handler refuses with a 500 "Database not connected" until the connection callback has set the collection handle.

Modules:

- `Wrappers` (wrappers.dfy): `Option` and `Result`.
- `Exercises` (exercises.dfy): parsed dates and integers, and the exercise the add-exercise handler builds. A date is `Day(n)` or `InvalidDate`. Any comparison with an invalid date is false, as a comparison with a NaN time value is. A parsed integer is `Int(v)` or `NaN`.
- `Subsequences` (subsequences.dfy): "r is a subsequence of s", stated by the strictly increasing positions of `s` it is taken from.
- `LogQuery` (log_query.dfy): the two filter steps, the slice by limit and the reply body. These are pure functions, with lemmas for order, bounds, completeness, limit and count.
- `UserStore` (user_store.dfy): the collection as a class.
  - Fields: `ready` (the handle is set), `users` (a map from identifier to document) and `nextId` (the next fresh identifier).
  - Methods: one per handler, plus the connection callback.
  - `CreateAddThenQuery` is a client that states, from the method contracts alone, what creating a user, adding an exercise and querying the log yield.
- `Handlers` (handlers.dfy): the status code and message of each error reply.

The model follows what the handlers actually do:
- A negative `limit` keeps all but the last `-limit` matches, as `slice` does.
- A `limit` of `"0"` is a given limit and yields an empty log.
- A malformed identifier ends in the handler's catch block with a 500.

## Model

| member | source | states |
|---|---|---|
| LogQuery.FilterKeepsExactly | index.js:109-116 | a date filter returns a subsequence of its input in the original order, and keeps a position exactly when that exercise's date lies in the bounds |
| LogQuery.FilterInRange | index.js:109-116 | every exercise a date filter returns has its date within the filter's bounds |
| LogQuery.FilterTwice | index.js:109-116 | filtering by `from` and then by `to` equals one filter by both bounds |
| LogQuery.FilterUnbounded | index.js:107-116 | a filter with no bound returns its input unchanged |
| LogQuery.FilterInvalidBound | index.js:110-115 | a filter whose bound is an invalid date returns nothing |
| LogQuery.LogFiltersOnce | index.js:107-120 | the handler's conditional filter steps equal one filter by the given bounds, and neither they nor the slice lengthen the list |
| LogQuery.LogIsFirstMatches | index.js:107-120 | the returned log is a prefix of the exercises that satisfy both bounds |
| LogQuery.LogIsSubsequence | index.js:107-120 | the returned log is a subsequence of the stored exercises in their original order: nothing is reordered or added |
| LogQuery.LogWithinBounds | index.js:109-116 | when `from` is given every returned date is on or after it, and when `to` is given every returned date is on or before it; both bounds are inclusive |
| LogQuery.LogCompleteWithoutLimit | index.js:107-116 | without a limit, every stored exercise within both bounds is returned, and only those, in the original order |
| LogQuery.LogUnfiltered | index.js:107-120 | with no `from`, `to` or `limit` the log is the user's whole exercise list |
| LogQuery.LogLimit | index.js:118-120 | a limit n >= 0 gives exactly the first min(n, matches) matching exercises; a negative n drops the last -n matches; an unparseable limit gives an empty log |
| LogQuery.LogInvalidBound | index.js:109-116 | an unparseable `from` or `to` date gives an empty log |
| LogQuery.Report | index.js:122-127 | the reply carries the user's name and the filtered, limited log; its count is the length of that log, not the number of stored exercises |
| UserStore.UserCollection.constructor | index.js:16-17 | before the connection callback runs the handle is not set; the collection starts empty |
| UserStore.UserCollection.Connect | index.js:19-24 | the connection callback sets the handle and changes no document |
| UserStore.UserCollection.CreateUser | index.js:34-53 | before the handle is set: "not connected" and no change; otherwise a user with an empty exercise list is inserted under an identifier no other user has, other users are unchanged, and the reply is that identifier and username |
| UserStore.UserCollection.AddExercise | index.js:55-91 | before the handle is set: "not connected"; a malformed id: invalid-id error; no matching user: not found. On every failure no document changes. On success the new exercise is appended at the end of that user's list only, earlier exercises and other users are unchanged, and the reply carries the user's name and the new exercise. The appended exercise holds the given description and parsed duration, and the given date, or today's date when none is given |
| UserStore.UserCollection.FetchLogs | index.js:94-132 | before the handle is set: "not connected"; a malformed id: invalid-id error; no matching user: not found. Otherwise the reply carries the id, the username, the log the query selects from that user's exercises, and a count equal to the log's length |
| UserStore.UserCollection.ListUsers | index.js:134-144 | before the handle is set: "not connected"; otherwise one entry per user, in identifier order, carrying only id and username |
| UserStore.CreateAddThenQuery | index.js:38-127 | after creating a user and adding one exercise without a date, the listing (taken after the add) contains the username, and the unfiltered log is exactly that exercise, dated today, with count 1 |
| Handlers.ErrorFor | index.js:35-143 | only a missing user gives a 404; a missing connection gives a 500 "Database not connected"; a malformed id gives a 500 with the handler's catch message |

## Left out

- HTTP server setup, CORS, static files, the index page, environment configuration and the listening socket (index.js:1-10, 30-32, 146-148) are not modelled. They are plumbing.
- The database client, its connection bootstrap and the process exit on a failed connection (index.js:14, 19-28) are not modelled. Only the resulting `ready` flag is kept.
- Storage failures other than a malformed identifier are not modelled: a failed insert, update or read that would end in a catch block. The model has no database faults.
- Parsing is not modelled. JavaScript date parsing, `toDateString` formatting and `parseInt` are abstract: the handlers receive an already parsed `Option<Date>`, `ParsedInt` or `RequestId`. Formatting to a date string and parsing it back is taken to give the same day.
- Time zones are not modelled. A `from`, `to` or exercise date of the form `YYYY-MM-DD` parses as UTC midnight, while a stored date string parses as local midnight. The model compares both as the same day number, so a boundary exercise's inclusion on servers outside UTC is not captured. Nor is the shift of the stored day itself: on a server west of UTC a given date of `2023-01-05` is stored as the previous day, while the model stores the given day unchanged.
- The current time is not read. The day used for a missing date is the `today` parameter of `AddExercise`.
- A missing or empty query, path or body value is not modelled as a separate string. It enters as `None` (or as an arbitrary string for `username` and `description`). A query parameter repeated into an array is not modelled.
- The second lookup after a successful push (index.js:75-78) always finds the user in the model. The model has no deletion and no interleaving of handlers, so its 404 branch cannot occur.
- The event-loop interleaving of concurrent handlers and console logging are not modelled.
- Document identifiers are natural numbers the store hands out in order. This stands in for the database's fresh object identifiers.
- The store starts from an empty collection. Documents left by an earlier run are states the same operations reach.
- UserStore.UserCollection.ListUsers: the source returns documents in the database's natural order, which is not guaranteed. The model fixes it as creation order.
