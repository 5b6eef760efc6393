/** Properties that hold across handler calls: ids stay unique, a slice that has been appended to
    is never nil again, and under unique ids EditUser replaces exactly one user. */
module Properties {
  import opened Wrappers
  import opened Model
  import opened Portfolio
  import opened Lookup
  import opened Handlers

  /** The registry invariant: a nil slice is empty and no two users share an id. */
  ghost predicate Good(s: Store) {
    s.WellFormed() && UniqueIds(s.users)
  }

  /** CreateUser checks for a duplicate id before it appends, so ids stay unique. */
  lemma CreateKeepsInvariant(s: Store, req: Request, results: seq<FetchResult>)
    requires Good(s)
    ensures Good(CreateUserOutcome(s, req, results).store)
  {
  }

  /** Removing one user keeps the remaining ids distinct. */
  lemma DeleteKeepsInvariant(s: Store, req: Request)
    requires Good(s)
    ensures Good(DeleteUserOutcome(s, req).store)
  {
  }

  /** EditUser keeps the matched id, so ids stay unique. */
  lemma EditKeepsInvariant(s: Store, req: Request, results: seq<FetchResult>)
    requires Good(s)
    ensures Good(EditUserOutcome(s, req, results).store)
  {
  }

  /** Users after the last match leave the listings EditUser writes unchanged. */
  lemma {:induction false} SnapshotsIgnoreTail(users: seq<User>, id: int, edited: User, m: nat)
    requires m <= |users|
    requires forall k :: m <= k < |users| ==> users[k].id != id
    ensures Snapshots(users, id, edited) == Snapshots(users[..m], id, edited)
    decreases |users| - m
  {
    if m < |users| {
      var n := |users| - 1;
      SnapshotsIgnoreTail(users[..n], id, edited, m);
      assert users[..n][..m] == users[..m];
    } else {
      assert users[..m] == users;
    }
  }

  /** With unique ids EditUser rewrites the one matching user and drops every user after it:
      the slice becomes the users before the match followed by the edited user. */
  lemma EditedUsersWithUniqueIds(users: seq<User>, id: int, edited: User, i: nat)
    requires UniqueIds(users)
    requires FirstMatch(users, id) == Some(i)
    ensures EditedUsers(users, id, edited) == users[..i] + [edited]
  {
  }

  /** Replacing the matches in a prefix that ends at the only match. */
  lemma ReplaceUpToOnlyMatch(users: seq<User>, id: int, edited: User, i: nat)
    requires i < |users| && users[i].id == id
    requires forall k :: 0 <= k < i ==> users[k].id != id
    ensures ReplaceMatches(users[..i + 1], id, edited) == users[..i] + [edited]
  {
  }

  /** With unique ids EditUser writes back exactly one listing: the slice it leaves behind. */
  lemma {:induction false} SnapshotsWithUniqueIds(users: seq<User>, id: int, edited: User, i: nat)
    requires UniqueIds(users)
    requires FirstMatch(users, id) == Some(i)
    ensures Snapshots(users, id, edited) == [users[..i] + [edited]]
  {
    FirstIsLastWhenUnique(users, id);
    SnapshotsIgnoreTail(users, id, edited, i + 1);
    var prefix := users[..i + 1];
    assert prefix[..i] == users[..i];
    assert prefix[i].id == id;
    var earlier := Snapshots(prefix[..i], id, edited);
    assert earlier == [];
    assert Snapshots(prefix, id, edited) == earlier + [ReplaceMatches(prefix, id, edited)];
    ReplaceUpToOnlyMatch(users, id, edited, i);
  }

  /** EditUser on a registry with unique ids, in the handler's own terms. */
  lemma EditOutcomeWithUniqueIds(s: Store, req: Request, results: seq<FetchResult>, i: nat)
    requires Good(s)
    requires req.verb == MethodPut && req.contentType == JsonContentType && req.id.Some?
    requires FirstMatch(s.users, req.id.value) == Some(i)
    ensures var o := EditUserOutcome(s, req, results);
      var u := o.store.users[i];
      o.store.users == s.users[..i] + [u] &&
      u.id == s.users[i].id &&
      u.firstName == req.body.firstName && u.lastName == req.body.lastName &&
      u.email == req.body.email && u.stocks == req.body.stocks &&
      u.portfolio == Successes(results) &&
      o.reply == Reply(StatusOK, Listings([o.store.users]))
  {
    var edited := EditedUser(req.id.value, req.body, results);
    EditedUsersWithUniqueIds(s.users, req.id.value, edited, i);
    SnapshotsWithUniqueIds(s.users, req.id.value, edited, i);
  }

  /** A successful CreateUser appends exactly one user after the existing ones: the decoded user,
      whose portfolio is the one the client sent followed by every successful fetch response. */
  lemma CreateAppendsOneUser(s: Store, req: Request, results: seq<FetchResult>)
    requires req.verb == MethodPost && req.contentType == JsonContentType
    requires forall k :: 0 <= k < |s.users| ==> s.users[k].id != req.body.id
    ensures var r := CreateUserOutcome(s, req, results).store.users;
      var u := r[|s.users|];
      |r| == |s.users| + 1 && r[..|s.users|] == s.users &&
      u.id == req.body.id && u.email == req.body.email &&
      u.firstName == req.body.firstName && u.lastName == req.body.lastName &&
      u.stocks == req.body.stocks &&
      u.portfolio[..|req.body.portfolio|] == req.body.portfolio &&
      u.portfolio[|req.body.portfolio|..] == Successes(results) &&
      forall x :: x in u.portfolio[|req.body.portfolio|..] <==>
        exists k :: 0 <= k < |results| && !results[k].Failed() && results[k].response == x
  {
    var r := CreateUserOutcome(s, req, results).store.users;
    assert r == s.users + [Admitted(req.body, results)];
    var u := r[|s.users|];
    assert u.portfolio[|req.body.portfolio|..] == Successes(results);
    forall x ensures x in u.portfolio[|req.body.portfolio|..] <==>
      exists k :: 0 <= k < |results| && !results[k].Failed() && results[k].response == x
    {
      SuccessesMembership(results, x);
    }
  }

  /** A user that CreateUser has stored is the one ShowUser then answers with. */
  lemma CreateThenShowUser(s: Store, create: Request, results: seq<FetchResult>, show: Request)
    requires create.verb == MethodPost && create.contentType == JsonContentType
    requires forall k :: 0 <= k < |s.users| ==> s.users[k].id != create.body.id
    requires show.verb == MethodGet && show.id == Some(create.body.id)
    ensures ShowUserReply(CreateUserOutcome(s, create, results).store, show) ==
      Reply(StatusOK, OneUser(Admitted(create.body, results)))
  {
    var r := CreateUserOutcome(s, create, results).store.users;
    assert r == s.users + [Admitted(create.body, results)];
    assert r[|s.users|].id == create.body.id;
    assert forall k :: 0 <= k < |s.users| ==> r[k] == s.users[k];
    assert FirstMatch(r, create.body.id) == Some(|s.users|);
  }

  /** With unique ids, after DeleteUser has removed a user, ShowUser no longer finds its id. */
  lemma DeleteThenShowUser(s: Store, delete: Request, show: Request)
    requires Good(s)
    requires delete.verb == MethodDelete && delete.id.Some?
    requires show.verb == MethodGet && show.id == delete.id
    ensures ShowUserReply(DeleteUserOutcome(s, delete).store, show).status == StatusBadRequest
  {
  }

  /** With unique ids, after EditUser has rewritten a user, ShowUser answers with the edited user. */
  lemma EditThenShowUser(s: Store, edit: Request, results: seq<FetchResult>, show: Request, i: nat)
    requires Good(s)
    requires edit.verb == MethodPut && edit.contentType == JsonContentType && edit.id.Some?
    requires FirstMatch(s.users, edit.id.value) == Some(i)
    requires show.verb == MethodGet && show.id == edit.id
    ensures ShowUserReply(EditUserOutcome(s, edit, results).store, show) ==
      Reply(StatusOK, OneUser(EditedUser(edit.id.value, edit.body, results)))
  {
  }

  /** One handler call, as the server's router dispatches it. */
  datatype Call =
    | ShowAllCall(req: Request)
    | ShowCall(req: Request)
    | CreateCall(req: Request, results: seq<FetchResult>)
    | EditCall(req: Request, results: seq<FetchResult>)
    | DeleteCall(req: Request)

  function Step(s: Store, c: Call): (o: Outcome)
  {
    match c
    case ShowAllCall(req) => Outcome(s, ShowAllUsersReply(s, req))
    case ShowCall(req) => Outcome(s, ShowUserReply(s, req))
    case CreateCall(req, results) => CreateUserOutcome(s, req, results)
    case EditCall(req, results) => EditUserOutcome(s, req, results)
    case DeleteCall(req) => DeleteUserOutcome(s, req)
  }

  /** The slice after a sequence of handler calls, each taken as one atomic step. */
  function Run(s: Store, calls: seq<Call>): (r: Store)
    decreases |calls|
  {
    if calls == [] then s else Run(Step(s, calls[0]).store, calls[1..])
  }

  /** Every slice the server can reach from its start has unique ids (and is empty when nil). */
  lemma {:induction false} ReachableStoresAreGood(s: Store, calls: seq<Call>)
    requires Good(s)
    ensures Good(Run(s, calls))
    decreases |calls|
  {
    if calls != [] {
      var c := calls[0];
      match c {
        case ShowAllCall(_) =>
        case ShowCall(_) =>
        case CreateCall(req, results) => CreateKeepsInvariant(s, req, results);
        case EditCall(req, results) => EditKeepsInvariant(s, req, results);
        case DeleteCall(req) => DeleteKeepsInvariant(s, req);
      }
      ReachableStoresAreGood(Step(s, c).store, calls[1..]);
    }
  }

  /** Once the slice is not nil, no sequence of calls makes it nil again. */
  lemma {:induction false} NeverNilAgain(s: Store, calls: seq<Call>)
    requires !s.isNil
    ensures !Run(s, calls).isNil
    decreases |calls|
  {
    if calls != [] {
      NeverNilAgain(Step(s, calls[0]).store, calls[1..]);
    }
  }

  /** After CreateUser has appended, deleting that user leaves an empty but non-nil slice, so
      GET /user/all answers 200 with an empty list instead of the 400 of a fresh server. */
  lemma DeleteLastThenShowAll(create: Request, results: seq<FetchResult>, delete: Request, show: Request)
    requires create.verb == MethodPost && create.contentType == JsonContentType
    requires delete.verb == MethodDelete && delete.id == Some(create.body.id)
    requires show.verb == MethodGet && show.path == AllUsersPath
    ensures ShowAllUsersReply(Initial, show) == Reply(StatusBadRequest, Text([NoUsersMsg]))
    ensures var s := Run(Initial, [CreateCall(create, results), DeleteCall(delete)]);
      s == Store([], false) && ShowAllUsersReply(s, show) == Reply(StatusOK, UserList([]))
  {
    var s1 := CreateUserOutcome(Initial, create, results).store;
    assert s1.users == [Admitted(create.body, results)];
    var s2 := DeleteUserOutcome(s1, delete).store;
    assert s2.users == [];
    assert Run(Initial, [CreateCall(create, results), DeleteCall(delete)]) == Run(s1, [DeleteCall(delete)]);
    assert Run(s1, [DeleteCall(delete)]) == Run(s2, []);
  }
}
