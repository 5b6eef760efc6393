# User registry of jsonRestServer, in Dafny

This project models the in-memory user registry of the jsonRestServer REST API
(`web/app/concurrentHandlers.go`). The registry is the package-level slice `allUsers`. Five HTTP
handlers read and rewrite it:

- `ShowAllUsers` answers `GET /user/all`.
- `ShowUser` answers `GET /user?id=`.
- `CreateUser` answers `POST /user/create`.
- `EditUser` answers `PUT /user/edit?id=`.
- `DeleteUser` answers `DELETE /user/delete?id=`.

The model also covers portfolio aggregation. This is the loop that drains the stock fetcher's
results, skips the failed ones and appends each successful response to a user's portfolio.

Layout:

- `wrappers.dfy`: `Option`.
- `model.dfy`: the types (`User`, `StockData`, `FetchResult`, `Request`, `Reply`, `Store`) and the
  handlers' constants: methods, path, content type, status codes and error messages.
- `portfolio.dfy`: `Successes`, the specification of aggregation, with its lemmas. `Aggregate` is the
  imperative loop proved against it.
- `lookup.dfy`: the id searches the handlers' `for range` loops perform, the unique-id predicate and
  the rewrite of matching users.
- `handlers.dfy`: each handler as a pure function. It takes the slice before the call, the request
  and the fetched results, and gives the new slice and the reply.
- `properties.dfy`: properties across calls. Ids stay unique, a slice that has been appended to is
  never nil again, and operations compose (create then show, edit then show, delete then show).
- `registry.dfy`: the class `UserRegistry`. Its fields are `users` and `isNil`, the slice and its
  nil-ness. Its handler methods use the source's loops and are proved equal to the functions of
  `handlers.dfy`. The method invariant `Valid()` says that ids are unique and that a nil slice is
  empty. EditUser's range loop sits in its own method, `RewriteMatches`.

Behaviour reproduced as the code has it:

- `ShowAllUsers` tells a nil slice (400) from an empty one (200 with `[]`).
- A JSON decode error in `CreateUser` writes 500 and the handler goes on. The user is still appended
  when its id is new. When the id is taken, the duplicate message follows, but the status stays 500.
- `EditUser` ignores decode errors. With no match it writes nothing, so the client gets 200 with an
  empty body. Its range loop does not stop at a match. `append(allUsers[:idx], user)` writes the
  edited user into the backing array the loop still reads, and cuts the slice just after it. So
  every user after the edited one is dropped. With unique ids, which every reachable registry has,
  the slice becomes `allUsers[:idx] + [edited]` and one JSON listing is written.
- `DeleteUser` removes the first match and keeps the order of the remaining users.

## Model

| member | source | states |
|---|---|---|
| `Portfolio.Successes` | web/app/concurrentHandlers.go:215-224 | The responses of the non-failed results, in arrival order; never more of them than results. |
| `Portfolio.Aggregate` | web/app/concurrentHandlers.go:215-224 | The draining loop leaves the portfolio as the initial portfolio followed by `Successes(results)`. |
| `Portfolio.SuccessesAppend` | web/app/concurrentHandlers.go:215-224 | Results arriving in two batches contribute their successes batch by batch, in order. |
| `Portfolio.SuccessesMembership` | web/app/concurrentHandlers.go:216-222 | A response is collected if and only if some result carried it with no error. |
| `Portfolio.SuccessesAllOk` | web/app/concurrentHandlers.go:215-224 | With no failures, every response is collected, in arrival order. |
| `Portfolio.SuccessesAllFailed` | web/app/concurrentHandlers.go:216-219 | With every fetch failed, nothing is collected. |
| `Portfolio.FailureIsIsolated` | web/app/concurrentHandlers.go:216-219 | A failed result is skipped without affecting the results before or after it. |
| `Lookup.FirstMatch` | web/app/concurrentHandlers.go:151-164 | Gives the index of the first user with the id, with no earlier match; None if and only if no user has it. |
| `Lookup.LastMatch` | web/app/concurrentHandlers.go:266-306 | Gives the index of the last user with the id, with no later match; None if and only if no user has it. |
| `Lookup.FirstIsLastWhenUnique` | web/app/concurrentHandlers.go:266-306 | With unique ids, EditUser's loop meets at most one match, so the first and last matches coincide. |
| `Handlers.EditedUsers` | web/app/concurrentHandlers.go:266-296 | After EditUser's loop, every kept position holds the edited user where the id matched and the old user elsewhere; the slice ends after the last match, or is untouched without one. |
| `Handlers.Snapshots` | web/app/concurrentHandlers.go:296-304 | EditUser writes exactly as many listings as there are users with the id; it writes none if and only if no user has the id. |
| `Handlers.LastSnapshotIsFinal` | web/app/concurrentHandlers.go:296-304 | The last listing written is the slice EditUser leaves behind. |
| `Handlers.ShowAllUsersReply` | web/app/concurrentHandlers.go:97-129 | A wrong path gives 404 and a wrong method 405. Status 200 with the whole slice comes if and only if path and method are right and the slice is not nil; a nil slice gives 400. |
| `Handlers.ShowUserReply` | web/app/concurrentHandlers.go:132-168 | A wrong method or a non-integer id gives 405. Status 200 comes if and only if some user has the id, and the body is then the first such user; otherwise 400 "User with id:... Not Found!". |
| `Handlers.CreateUserOutcome` | web/app/concurrentHandlers.go:171-228 | The slice is either unchanged or extended by exactly the admitted user and no longer nil. A wrong method gives 405 and a wrong content type 415, both with the slice unchanged. Past the guards, the slice is unchanged if and only if the id is taken. The status is 500 after a decode error, else 400 on a duplicate, else 200. |
| `Handlers.EditUserOutcome` | web/app/concurrentHandlers.go:231-310 | Nil-ness is kept. A wrong method or a non-integer id gives 405 and a wrong content type 415, all with the slice unchanged. An id no user has leaves the slice unchanged. Any change comes with status 200. |
| `Handlers.DeleteUserOutcome` | web/app/concurrentHandlers.go:313-356 | Nil-ness is kept. A wrong method or a non-integer id gives 405 with the slice unchanged. Status 200 comes if and only if some user has the id: the first such user is removed, the others keep their relative order and the length drops by one. Otherwise the reply is 400 "User doesn't exist!" and the slice is unchanged. |
| `Properties.CreateKeepsInvariant` | web/app/concurrentHandlers.go:203-226 | CreateUser preserves unique ids and "nil means empty". |
| `Properties.DeleteKeepsInvariant` | web/app/concurrentHandlers.go:334-337 | DeleteUser preserves unique ids and "nil means empty". |
| `Properties.EditKeepsInvariant` | web/app/concurrentHandlers.go:266-296 | EditUser preserves unique ids and "nil means empty". |
| `Properties.EditedUsersWithUniqueIds` | web/app/concurrentHandlers.go:266-296 | With unique ids and a match at `i`, the slice becomes `users[..i] + [edited]`: the users after it are dropped. |
| `Properties.SnapshotsWithUniqueIds` | web/app/concurrentHandlers.go:296-304 | With unique ids and a match at `i`, exactly one listing is written, `users[..i] + [edited]`. |
| `Properties.EditOutcomeWithUniqueIds` | web/app/concurrentHandlers.go:266-304 | On a valid registry, the edited user keeps its id and takes names, email and stocks from the request. Its portfolio is only the successful fetches. The slice ends with it, and the reply is 200 with that slice. |
| `Properties.CreateAppendsOneUser` | web/app/concurrentHandlers.go:215-226 | A successful create keeps the earlier users in place and appends one user with the request's fields. Its portfolio is the client's portfolio followed by `Successes(results)`, the responses of the non-failed results in arrival order; a response appears in that tail if and only if some non-failed result carried it. |
| `Properties.CreateThenShowUser` | web/app/concurrentHandlers.go:151-226 | After a successful create, ShowUser of the new id answers 200 with the stored user. |
| `Properties.DeleteThenShowUser` | web/app/concurrentHandlers.go:334-354 | On a valid registry, after DeleteUser of an id, ShowUser of that id answers 400. |
| `Properties.EditThenShowUser` | web/app/concurrentHandlers.go:266-296 | On a valid registry, after EditUser of a present id, ShowUser of that id answers with the edited user. |
| `Properties.ReachableStoresAreGood` | web/app/concurrentHandlers.go:203-337 | Any sequence of handler calls from a valid slice leaves ids unique and a nil slice empty. |
| `Properties.NeverNilAgain` | web/app/concurrentHandlers.go:226-337 | Once the slice is not nil, no sequence of handler calls makes it nil again. |
| `Properties.DeleteLastThenShowAll` | web/app/concurrentHandlers.go:114-127 | A fresh server answers GET /user/all with 400. After one user is created (even from a body whose decoding failed) and then deleted, the slice is empty but not nil, and the answer is 200 with `[]`. |
| `Registry.UserRegistry.constructor` | web/app/concurrentHandlers.go:34 | The server starts with a nil slice, which satisfies the registry invariant. |
| `Registry.UserRegistry.ShowAllUsers` | web/app/concurrentHandlers.go:97-129 | Answers as `ShowAllUsersReply` on the current slice. |
| `Registry.UserRegistry.ShowUser` | web/app/concurrentHandlers.go:132-168 | The scanning loop answers as `ShowUserReply` on the current slice. |
| `Registry.UserRegistry.CreateUser` | web/app/concurrentHandlers.go:171-228 | The duplicate scan and the append leave the slice and reply that `CreateUserOutcome` gives, and keep the invariant. |
| `Registry.UserRegistry.EditUser` | web/app/concurrentHandlers.go:231-310 | After the method, content-type and id checks and the range loop, the slice and reply are those `EditUserOutcome` gives, and the invariant is kept. |
| `Registry.UserRegistry.RewriteMatches` | web/app/concurrentHandlers.go:266-305 | The range loop, with its in-place writes to the shared backing array and its reslicing, leaves the slice `EditedUsers` describes, returns the listings `Snapshots` describes, and keeps nil-ness. |
| `Registry.UserRegistry.DeleteUser` | web/app/concurrentHandlers.go:313-356 | The scan and the shifting removal leave the slice and reply that `DeleteUserOutcome` gives, and keep the invariant. |

## Left out

- The stock fetcher `GetStockData` (web/app/concurrentHandlers.go:56-94) is not modelled. It is a goroutine with an unbuffered channel, a cancellation select, outbound HTTP and credentials read from the process arguments. Its output is an input sequence of `FetchResult` values in arrival order. The extra error send on a body read failure (line 81) and the panic on a nil response are not modelled either.
- JSON encoding and decoding are library calls and are not modelled. A handler receives the decoded `User` and a decode-failure flag. The 500 branches taken when `json.Marshal` fails (lines 117-120, 155-158, 297-301) are left out. Marshalling these types fails only on non-finite floats, and floats are not modelled.
- `strconv.Atoi` is a library call and is not modelled. The id parameter arrives both parsed, as `Option<int>`, and raw, for the 400 message of ShowUser. Go's 64-bit `int` range is not modelled: ids are unbounded integers.
- The `float64` price, time, high and low fields of `StockData` are floating point and are not modelled. Only `Symbol` is kept.
- Response headers (`Allow`, `Content-Type`), the trailing newline `http.Error` adds, log output, and the exact bytes of the JSON bodies are not modelled. A reply is its status code and a structured body.
- The failure branch of `fmt.Fprintf` in DeleteUser (lines 344-349) is a write error on the connection and is not modelled.
- A nil portfolio and an empty one marshal differently (`null` and `[]`). The model does not tell them apart.
- For EditUser with several users sharing the requested id, the source fetches the stocks again for each match. The model reuses one result sequence for all of them. No reachable registry has shared ids.
- `Ping`, route registration and `ListenAndServe` in `main` (lines 358-378) are server plumbing and are not modelled.
- `net/http` runs handlers concurrently against the unguarded slice. The model treats each handler call as one atomic, sequential step.
