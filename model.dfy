/** The data model of the user registry: users, fetched stock data, requests, replies
    and the package-level user slice. */
module Model {
  import opened Wrappers

  /** A stock quote. Only the ticker symbol is kept; the floating-point prices are not modelled. */
  datatype StockData = StockData(symbol: string)

  /** One outcome of the concurrent stock fetcher: a response, or an error message. */
  datatype FetchResult = FetchResult(error: Option<string>, response: StockData)
  {
    predicate Failed() { error.Some? }
  }

  /** A registered user, as stored in the registry and exchanged as JSON. */
  datatype User = User(
    id: int,
    email: string,
    firstName: string,
    lastName: string,
    stocks: seq<string>,
    portfolio: seq<StockData>)

  /** The package-level slice of users. `isNil` distinguishes a nil slice from an empty one. */
  datatype Store = Store(users: seq<User>, isNil: bool)
  {
    /** A nil slice has no elements. */
    ghost predicate WellFormed() { isNil ==> users == [] }
  }

  /** The store the server starts with: a nil slice. */
  const Initial: Store := Store([], true)

  /** What a handler sees of an HTTP request, after the library calls that are not modelled:
      `verb` is the HTTP method, `id` is the query parameter parsed as an integer (None when the parse fails), `rawId` the
      parameter as sent, and `body` the decoded JSON user with `decodeFailed` set when decoding failed. */
  datatype Request = Request(
    verb: string,
    path: string,
    contentType: string,
    rawId: string,
    id: Option<int>,
    body: User,
    decodeFailed: bool)

  /** What a handler writes back. */
  datatype Body =
    | NoBody                            // nothing written
    | Text(lines: seq<string>)          // one line per error message written
    | UserList(users: seq<User>)        // the JSON list of all users
    | OneUser(user: User)               // the JSON of one user
    | Listings(lists: seq<seq<User>>)   // one JSON list of all users per edited user
    | DeletedNotice(id: int)            // "Deleted User <id>"

  /** The status code sent (the first one written; 200 when none was) and the body. */
  datatype Reply = Reply(status: int, body: Body)

  /** The state after a handler and what it wrote back. */
  datatype Outcome = Outcome(store: Store, reply: Reply)

  const MethodGet := "GET"
  const MethodPost := "POST"
  const MethodPut := "PUT"
  const MethodDelete := "DELETE"
  const AllUsersPath := "/user/all"
  const JsonContentType := "application/json"

  const StatusOK := 200
  const StatusBadRequest := 400
  const StatusNotFound := 404
  const StatusMethodNotAllowed := 405
  const StatusUnsupportedMediaType := 415
  const StatusInternalServerError := 500

  const PageNotFoundMsg := "404 page not found"
  const MethodNotAllowedMsg := "Method Not Allowed"
  const NoUsersMsg := "There aren't any users!"
  const IdNotIntegerMsg := "Id must be an integer!"
  const WrongContentTypeMsg := "Expecting Header with Content-Type application/json"
  const DecodeFailedMsg := "Unable to Marshall Request!"
  const UserExistsMsg := "Users already exists!"
  const UserMissingMsg := "User doesn't exist!"

  /** The message of ShowUser when no user has the requested id. */
  function NotFoundMsg(rawId: string): string {
    "User with id:" + rawId + " Not Found!"
  }

  /** The reply of every handler to a request with the wrong HTTP method. */
  const WrongMethod := Reply(StatusMethodNotAllowed, Text([MethodNotAllowedMsg]))
  /** The reply to an id query parameter that is not an integer. */
  const BadId := Reply(StatusMethodNotAllowed, Text([IdNotIntegerMsg]))
  /** The reply of CreateUser and EditUser to a body that is not declared as JSON. */
  const WrongContentType := Reply(StatusUnsupportedMediaType, Text([WrongContentTypeMsg]))
}
