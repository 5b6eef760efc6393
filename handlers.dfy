/** What each HTTP handler does to the user slice and writes back, as a function of the slice
    before the call, the request and (for CreateUser and EditUser) the fetched stock results. */
module Handlers {
  import opened Wrappers
  import opened Model
  import opened Portfolio
  import opened Lookup

  /** The user CreateUser stores: the decoded user with the successful fetches appended to the
      portfolio the client sent. */
  function Admitted(newUser: User, results: seq<FetchResult>): (u: User)
  {
    newUser.(portfolio := newUser.portfolio + Successes(results))
  }

  /** The user EditUser writes over a user with the requested id: the id is kept, names, email and
      stocks come from the request, and the portfolio holds only the successful fetches. */
  function EditedUser(id: int, entry: User, results: seq<FetchResult>): (u: User)
  {
    User(id, entry.email, entry.firstName, entry.lastName, entry.stocks, Successes(results))
  }

  /** The slice after EditUser's loop: every match is overwritten in the shared backing array and the
      slice ends just after the last match; without a match the slice is untouched. */
  function EditedUsers(users: seq<User>, id: int, edited: User): (r: seq<User>)
    ensures LastMatch(users, id).None? ==> r == users
    ensures LastMatch(users, id).Some? ==> |r| == LastMatch(users, id).value + 1
    ensures forall k :: 0 <= k < |r| ==> r[k] == if users[k].id == id then edited else users[k]
  {
    match LastMatch(users, id)
    case None => users
    case Some(j) => ReplaceMatches(users, id, edited)[..j + 1]
  }

  /** How many users have the given id. */
  function MatchCount(users: seq<User>, id: int): (n: nat)
    decreases |users|
  {
    if users == [] then 0
    else MatchCount(users[..|users| - 1], id) + if users[|users| - 1].id == id then 1 else 0
  }

  /** The JSON listings EditUser writes: the slice as it stands after each match, in order. */
  function Snapshots(users: seq<User>, id: int, edited: User): (r: seq<seq<User>>)
    ensures |r| == MatchCount(users, id)
    ensures r == [] <==> forall k :: 0 <= k < |users| ==> users[k].id != id
    decreases |users|
  {
    if users == [] then []
    else
      var n := |users| - 1;
      Snapshots(users[..n], id, edited) +
        if users[n].id == id then [ReplaceMatches(users, id, edited)] else []
  }

  /** The last listing EditUser writes is the slice it leaves behind. */
  lemma {:induction false} LastSnapshotIsFinal(users: seq<User>, id: int, edited: User)
    requires Snapshots(users, id, edited) != []
    ensures var r := Snapshots(users, id, edited); r[|r| - 1] == EditedUsers(users, id, edited)
    decreases |users|
  {
    var n := |users| - 1;
    var prefix := users[..n];
    if users[n].id != id {
      LastSnapshotIsFinal(prefix, id, edited);
      var a, b := EditedUsers(prefix, id, edited), EditedUsers(users, id, edited);
      assert LastMatch(users, id) == LastMatch(prefix, id);
      assert |a| == |b|;
      forall k | 0 <= k < |a| ensures a[k] == b[k] {
        assert prefix[k] == users[k];
      }
    }
  }

  /** GET /user/all: the whole slice, unless the path is wrong, the method is wrong or the slice is nil. */
  function ShowAllUsersReply(s: Store, req: Request): (reply: Reply)
    ensures req.path != AllUsersPath ==> reply == Reply(StatusNotFound, Text([PageNotFoundMsg]))
    ensures req.path == AllUsersPath && req.verb != MethodGet ==> reply == WrongMethod
    ensures reply.status == StatusOK <==> req.path == AllUsersPath && req.verb == MethodGet && !s.isNil
    ensures reply.status == StatusOK ==> reply.body == UserList(s.users)
    ensures req.path == AllUsersPath && req.verb == MethodGet && s.isNil ==>
      reply == Reply(StatusBadRequest, Text([NoUsersMsg]))
  {
    if req.path != AllUsersPath then Reply(StatusNotFound, Text([PageNotFoundMsg]))
    else if req.verb != MethodGet then WrongMethod
    else if !s.isNil then Reply(StatusOK, UserList(s.users))
    else Reply(StatusBadRequest, Text([NoUsersMsg]))
  }

  /** GET /user?id=: the first user with the requested id. */
  function ShowUserReply(s: Store, req: Request): (reply: Reply)
    ensures req.verb != MethodGet ==> reply == WrongMethod
    ensures req.verb == MethodGet && req.id.None? ==> reply == BadId
    ensures reply.status == StatusOK <==>
      req.verb == MethodGet && req.id.Some? &&
      exists k :: 0 <= k < |s.users| && s.users[k].id == req.id.value
    ensures reply.status == StatusOK ==>
      exists i :: 0 <= i < |s.users| && reply.body == OneUser(s.users[i]) &&
        s.users[i].id == req.id.value && forall k :: 0 <= k < i ==> s.users[k].id != req.id.value
    ensures req.verb == MethodGet && req.id.Some? && reply.status != StatusOK ==>
      reply == Reply(StatusBadRequest, Text([NotFoundMsg(req.rawId)]))
  {
    if req.verb != MethodGet then WrongMethod
    else if req.id.None? then BadId
    else match FirstMatch(s.users, req.id.value)
      case Some(i) => Reply(StatusOK, OneUser(s.users[i]))
      case None => Reply(StatusBadRequest, Text([NotFoundMsg(req.rawId)]))
  }

  /** POST /user/create: append the decoded user unless its id is taken. A decoding failure writes
      500 but does not stop the handler, and the status it wrote is the one the client sees. */
  function CreateUserOutcome(s: Store, req: Request, results: seq<FetchResult>): (o: Outcome)
    ensures o.store == s || o.store == Store(s.users + [Admitted(req.body, results)], false)
    ensures req.verb != MethodPost ==> o == Outcome(s, WrongMethod)
    ensures req.verb == MethodPost && req.contentType != JsonContentType ==> o == Outcome(s, WrongContentType)
    ensures req.verb == MethodPost && req.contentType == JsonContentType ==>
      (o.store == s <==> exists k :: 0 <= k < |s.users| && s.users[k].id == req.body.id)
    ensures req.verb == MethodPost && req.contentType == JsonContentType ==>
      o.reply.status == if req.decodeFailed then StatusInternalServerError
                        else if o.store == s then StatusBadRequest
                        else StatusOK
  {
    if req.verb != MethodPost then Outcome(s, WrongMethod)
    else if req.contentType != JsonContentType then Outcome(s, WrongContentType)
    else
      var decodeErrors := if req.decodeFailed then [DecodeFailedMsg] else [];
      if FirstMatch(s.users, req.body.id).Some? then
        var status := if req.decodeFailed then StatusInternalServerError else StatusBadRequest;
        Outcome(s, Reply(status, Text(decodeErrors + [UserExistsMsg])))
      else
        var reply := if req.decodeFailed then Reply(StatusInternalServerError, Text(decodeErrors))
                     else Reply(StatusOK, NoBody);
        Outcome(Store(s.users + [Admitted(req.body, results)], false), reply)
  }

  /** PUT /user/edit?id=: overwrite the users with the requested id and cut the slice after the last
      of them. A decoding failure is ignored; with no match nothing is written (status 200). */
  function EditUserOutcome(s: Store, req: Request, results: seq<FetchResult>): (o: Outcome)
    ensures o.store.isNil == s.isNil
    ensures req.verb != MethodPut ==> o == Outcome(s, WrongMethod)
    ensures req.verb == MethodPut && req.contentType != JsonContentType ==> o == Outcome(s, WrongContentType)
    ensures req.verb == MethodPut && req.contentType == JsonContentType && req.id.None? ==> o == Outcome(s, BadId)
    ensures req.id.Some? && (forall k :: 0 <= k < |s.users| ==> s.users[k].id != req.id.value) ==>
      o.store == s
    ensures o.reply.status == StatusOK || o.store == s
  {
    if req.verb != MethodPut then Outcome(s, WrongMethod)
    else if req.contentType != JsonContentType then Outcome(s, WrongContentType)
    else if req.id.None? then Outcome(s, BadId)
    else
      var id := req.id.value;
      var edited := EditedUser(id, req.body, results);
      var listings := Snapshots(s.users, id, edited);
      Outcome(Store(EditedUsers(s.users, id, edited), s.isNil),
              Reply(StatusOK, if listings == [] then NoBody else Listings(listings)))
  }

  /** DELETE /user/delete?id=: remove the first user with the requested id, keeping the others in order. */
  function DeleteUserOutcome(s: Store, req: Request): (o: Outcome)
    ensures o.store.isNil == s.isNil
    ensures req.verb != MethodDelete ==> o == Outcome(s, WrongMethod)
    ensures req.verb == MethodDelete && req.id.None? ==> o == Outcome(s, BadId)
    ensures o.reply.status == StatusOK <==>
      req.verb == MethodDelete && req.id.Some? &&
      exists k :: 0 <= k < |s.users| && s.users[k].id == req.id.value
    ensures o.reply.status != StatusOK ==> o.store == s
    ensures req.verb == MethodDelete && req.id.Some? && o.reply.status != StatusOK ==>
      o.reply == Reply(StatusBadRequest, Text([UserMissingMsg]))
    ensures o.reply.status == StatusOK ==>
      o.reply.body == DeletedNotice(req.id.value) &&
      |o.store.users| == |s.users| - 1 &&
      exists i :: 0 <= i < |s.users| && s.users[i].id == req.id.value &&
        (forall k :: 0 <= k < i ==> s.users[k].id != req.id.value) &&
        forall k :: 0 <= k < |o.store.users| ==> o.store.users[k] == s.users[if k < i then k else k + 1]
  {
    if req.verb != MethodDelete then Outcome(s, WrongMethod)
    else if req.id.None? then Outcome(s, BadId)
    else match FirstMatch(s.users, req.id.value)
      case Some(i) =>
        var rest := s.users[..i] + s.users[i + 1..];
        assert forall k :: 0 <= k < |rest| ==> rest[k] == s.users[if k < i then k else k + 1];
        Outcome(Store(rest, s.isNil), Reply(StatusOK, DeletedNotice(req.id.value)))
      case None =>
        Outcome(s, Reply(StatusBadRequest, Text([UserMissingMsg])))
  }
}
