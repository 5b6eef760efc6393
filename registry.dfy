/** The server's user registry: the package-level slice of users and the five handlers that read
    and rewrite it, each handler call taken as one atomic step. */
module Registry {
  import opened Wrappers
  import opened Model
  import opened Portfolio
  import opened Lookup
  import opened Handlers
  import opened Properties

  class UserRegistry {
    /** The elements of the slice, in order. */
    var users: seq<User>
    /** Whether the slice is nil (never appended to). */
    var isNil: bool

    ghost function State(): Store
      reads this
    {
      Store(users, isNil)
    }

    ghost predicate Valid()
      reads this
    {
      Good(State())
    }

    /** The registry a freshly started server holds: a nil slice. */
    constructor ()
      ensures Valid() && State() == Initial
    {
      users := [];
      isNil := true;
    }

    /** GET /user/all. */
    method ShowAllUsers(req: Request) returns (reply: Reply)
      ensures reply == ShowAllUsersReply(State(), req)
    {
      if req.path != AllUsersPath {
        return Reply(StatusNotFound, Text([PageNotFoundMsg]));
      }
      if req.verb != MethodGet {
        return WrongMethod;
      }
      if !isNil {
        return Reply(StatusOK, UserList(users));
      }
      reply := Reply(StatusBadRequest, Text([NoUsersMsg]));
    }

    /** GET /user?id=: scan the slice and answer with the first user whose id matches. */
    method ShowUser(req: Request) returns (reply: Reply)
      ensures reply == ShowUserReply(State(), req)
    {
      if req.verb != MethodGet {
        return WrongMethod;
      }
      if req.id.None? {
        return BadId;
      }
      var id := req.id.value;
      var k := 0;
      while k < |users|
        invariant 0 <= k <= |users|
        invariant forall j :: 0 <= j < k ==> users[j].id != id
      {
        var user := users[k];
        if user.id == id {
          return Reply(StatusOK, OneUser(user));
        }
        k := k + 1;
      }
      reply := Reply(StatusBadRequest, Text([NotFoundMsg(req.rawId)]));
    }

    /** POST /user/create: reject a taken id, otherwise fetch the stocks and append the user. */
    method CreateUser(req: Request, results: seq<FetchResult>) returns (reply: Reply)
      requires Valid()
      modifies this
      ensures Valid()
      ensures State() == CreateUserOutcome(old(State()), req, results).store
      ensures reply == CreateUserOutcome(old(State()), req, results).reply
    {
      CreateKeepsInvariant(State(), req, results);
      if req.verb != MethodPost {
        return WrongMethod;
      }
      if req.contentType != JsonContentType {
        return WrongContentType;
      }
      var newUser := req.body;
      var written: seq<string> := [];
      if req.decodeFailed {
        written := [DecodeFailedMsg];
      }
      var k := 0;
      while k < |users|
        invariant 0 <= k <= |users|
        invariant forall j :: 0 <= j < k ==> users[j].id != newUser.id
      {
        if users[k].id == newUser.id {
          var status := if req.decodeFailed then StatusInternalServerError else StatusBadRequest;
          return Reply(status, Text(written + [UserExistsMsg]));
        }
        k := k + 1;
      }
      var portfolio := Aggregate(newUser.portfolio, results);
      newUser := newUser.(portfolio := portfolio);
      users := users + [newUser];
      isNil := false;
      reply := if req.decodeFailed then Reply(StatusInternalServerError, Text(written))
               else Reply(StatusOK, NoBody);
    }

    /** PUT /user/edit?id=: check the method, the content type and the id, then run the range loop
        over the slice and write back the listings it produced. */
    method EditUser(req: Request, results: seq<FetchResult>) returns (reply: Reply)
      requires Valid()
      modifies this
      ensures Valid()
      ensures State() == EditUserOutcome(old(State()), req, results).store
      ensures reply == EditUserOutcome(old(State()), req, results).reply
    {
      if req.verb != MethodPut {
        return WrongMethod;
      }
      if req.contentType != JsonContentType {
        return WrongContentType;
      }
      if req.id.None? {
        return BadId;
      }
      var listings := RewriteMatches(req.id.value, req.body, results);
      reply := Reply(StatusOK, if listings == [] then NoBody else Listings(listings));
      EditKeepsInvariant(old(State()), req, results);
    }

    /** EditUser's range loop over the slice as it was on entry. Each user with the id is rebuilt from
        the request and the fetched stocks, written into the shared backing array at its index, and
        the slice is cut just after it; the loop goes on to the end. Returns the listings written. */
    method RewriteMatches(id: int, entry: User, results: seq<FetchResult>) returns (listings: seq<seq<User>>)
      modifies this
      ensures isNil == old(isNil)
      ensures users == EditedUsers(old(users), id, EditedUser(id, entry, results))
      ensures listings == Snapshots(old(users), id, EditedUser(id, entry, results))
    {
      ghost var edited := EditedUser(id, entry, results);
      var original := users;   // the range expression, evaluated once
      var backing := users;    // the array every reslice of the slice shares
      listings := [];
      var k := 0;
      ScanStart(original, id, edited);
      while k < |original|
        invariant k <= |original|
        invariant Scanned(users, listings, backing, original, k, id, edited)
        invariant isNil == old(isNil)
      {
        var user := backing[k];
        if user.id == id {
          user := user.(firstName := entry.firstName, lastName := entry.lastName, email := entry.email);
          user := user.(portfolio := []);
          user := user.(stocks := entry.stocks);
          var portfolio := Aggregate(user.portfolio, results);
          user := user.(portfolio := portfolio);
          assert user == edited;
          MatchStep(users, listings, backing, original, k, id, edited);
          assert backing[k := user] == backing[k := edited];
          backing := backing[k := user];
          users := backing[..k + 1];
          listings := listings + [users];
        } else {
          MissStep(users, listings, backing, original, k, id, edited);
        }
        k := k + 1;
      }
      ScanEnd(users, listings, backing, original, id, edited);
    }

    /** DELETE /user/delete?id=: remove the first user whose id matches, shifting the rest down. */
    method DeleteUser(req: Request) returns (reply: Reply)
      requires Valid()
      modifies this
      ensures Valid()
      ensures State() == DeleteUserOutcome(old(State()), req).store
      ensures reply == DeleteUserOutcome(old(State()), req).reply
    {
      DeleteKeepsInvariant(State(), req);
      if req.verb != MethodDelete {
        return WrongMethod;
      }
      if req.id.None? {
        return BadId;
      }
      var id := req.id.value;
      var k := 0;
      while k < |users|
        invariant 0 <= k <= |users|
        invariant users == old(users)
        invariant forall j :: 0 <= j < k ==> users[j].id != id
      {
        var user := users[k];
        if user.id == id {
          users := users[..k] + users[k + 1..];
          return Reply(StatusOK, DeletedNotice(user.id));
        }
        k := k + 1;
      }
      reply := Reply(StatusBadRequest, Text([UserMissingMsg]));
    }
  }

  /** The backing array during EditUser's loop: the first `k` users of the original slice have had
      their matches overwritten, the rest are as they were. */
  ghost predicate Rewritten(backing: seq<User>, original: seq<User>, k: nat, id: int, edited: User) {
    && k <= |original| == |backing|
    && (forall j :: 0 <= j < k ==> backing[j] == if original[j].id == id then edited else original[j])
    && (forall j :: k <= j < |original| ==> backing[j] == original[j])
  }

  /** The state of EditUser's loop after `k` iterations: the backing array, the listings written so
      far and the slice, which ends just after the last match seen (or is untouched without one). */
  ghost predicate Scanned(users: seq<User>, listings: seq<seq<User>>, backing: seq<User>,
                          original: seq<User>, k: nat, id: int, edited: User)
  {
    && Rewritten(backing, original, k, id, edited)
    && listings == Snapshots(original[..k], id, edited)
    && users == match LastMatch(original[..k], id)
                case None => original
                case Some(m) => backing[..m + 1]
  }

  /** Before EditUser's loop: nothing rewritten, nothing written, the slice untouched. */
  lemma ScanStart(original: seq<User>, id: int, edited: User)
    ensures Scanned(original, [], original, original, 0, id, edited)
  {
  }

  /** A loop iteration of EditUser at a matching index. */
  lemma MatchStep(users: seq<User>, listings: seq<seq<User>>, backing: seq<User>,
                  original: seq<User>, k: nat, id: int, edited: User)
    requires Scanned(users, listings, backing, original, k, id, edited)
    requires k < |original| && backing[k].id == id
    ensures var b := backing[k := edited];
      Scanned(b[..k + 1], listings + [b[..k + 1]], b, original, k + 1, id, edited)
  {
    var b := backing[k := edited];
    var p := original[..k + 1];
    assert p[..k] == original[..k];
    assert Rewritten(b, original, k + 1, id, edited);
    assert LastMatch(p, id) == Some(k);
    PrefixIsReplaced(b, original, k + 1, id, edited);
    assert Snapshots(p, id, edited) == Snapshots(original[..k], id, edited) + [ReplaceMatches(p, id, edited)];
  }

  /** The rewritten part of the backing array is the original prefix with its matches replaced. */
  lemma PrefixIsReplaced(backing: seq<User>, original: seq<User>, k: nat, id: int, edited: User)
    requires Rewritten(backing, original, k, id, edited)
    ensures backing[..k] == ReplaceMatches(original[..k], id, edited)
  {
  }

  /** A loop iteration of EditUser at an index that does not match. */
  lemma MissStep(users: seq<User>, listings: seq<seq<User>>, backing: seq<User>,
                 original: seq<User>, k: nat, id: int, edited: User)
    requires Scanned(users, listings, backing, original, k, id, edited)
    requires k < |original| && backing[k].id != id
    ensures Scanned(users, listings, backing, original, k + 1, id, edited)
  {
    var p := original[..k + 1];
    assert p[..k] == original[..k] && p[k].id != id;
    assert Rewritten(backing, original, k + 1, id, edited);
    assert LastMatch(p, id) == LastMatch(original[..k], id);
    assert Snapshots(p, id, edited) == Snapshots(original[..k], id, edited);
  }

  /** When EditUser's loop ends, the slice and the listings are the ones the handler's outcome gives. */
  lemma ScanEnd(users: seq<User>, listings: seq<seq<User>>, backing: seq<User>,
                original: seq<User>, id: int, edited: User)
    requires Scanned(users, listings, backing, original, |original|, id, edited)
    ensures users == EditedUsers(original, id, edited)
    ensures listings == Snapshots(original, id, edited)
  {
    assert original[..|original|] == original;
    match LastMatch(original, id)
    case None =>
    case Some(m) =>
      assert |users| == |EditedUsers(original, id, edited)|;
  }
}
