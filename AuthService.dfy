/** The authentication service (`src/services/auth.ts`): requests to the
    remote service, whose replies are inputs here, and the session kept in
    the browser's `localStorage`, a string-keyed map that `login`, `logout`
    and `getProfile` update in place. */
module AuthService {
  import opened Wrappers

  datatype User = User(id: string, email: string, fullName: string)

  datatype LoginResponse = LoginResponse(token: string, user: User)

  datatype SignupResponse = SignupResponse(email: string, fullName: string, verificationToken: string)

  /** The envelope every reply of the remote service shares. */
  datatype ApiResponse<T> = ApiResponse(responseCode: string, responseDesc: string, success: bool, data: T)

  /** Why a request's promise was rejected: an `Error` with its message, or
      a value that is not an `Error`. */
  datatype Rejection = ErrorObject(message: string) | NonError

  /** The `data` field of a reply as the code reads it: a value, `null`,
      or no field at all (`undefined`). */
  datatype Data<T> = Present(value: T) | Null | Undefined

  /** How a request to the remote service settles. */
  datatype Reply<T> = Resolved(response: ApiResponse<T>) | Rejected(reason: Rejection)

  /** A value in `localStorage`: the JSON text of a user, the JSON text
      `null`, or other text. `JSON.stringify` and `JSON.parse` are taken as
      inverse to each other on users and on `null`; `Text` stands for text
      that `JSON.parse` rejects or that is never parsed (the token). */
  datatype Stored = Text(text: string) | UserJson(user: User) | NullJson

  const TokenKey := "token"
  const UserKey := "user"

  /** What `JSON.parse` throws on stored text that is not JSON. */
  const ParseError := "SyntaxError: stored user is not valid JSON"

  /** The `!!` of a stored string: only the empty string is falsy, and JSON
      text is never empty. */
  predicate Truthy(v: Stored) {
    !v.Text? || v.text != []
  }

  /** The browser's `localStorage`. */
  class LocalStorage {
    var items: map<string, Stored>

    constructor (items: map<string, Stored>)
      ensures this.items == items
    {
      this.items := items;
    }
  }

  // ---------------------------------------------------------------------
  // Reads

  /** `authService.isAuthenticated()`: the token key holds a non-empty string. */
  function IsAuthenticated(items: map<string, Stored>): (r: bool)
    ensures r <==> TokenKey in items && items[TokenKey] != Text([])
  {
    TokenKey in items && Truthy(items[TokenKey])
  }

  /** `authService.getUser()`: no user when the key is absent, empty or
      holds `null`, the stored user for a user's JSON; stored text that is
      not JSON makes it throw. */
  function GetUser(items: map<string, Stored>): (r: Result<Option<User>, string>)
    ensures r.Failure? <==> UserKey in items && items[UserKey].Text? && items[UserKey].text != []
    ensures r == Success(None) <==> UserKey !in items || items[UserKey] == Text([]) || items[UserKey] == NullJson
    ensures r.Success? && r.value.Some? <==> UserKey in items && items[UserKey].UserJson?
    ensures r.Success? && r.value.Some? ==> r.value.value == items[UserKey].user
  {
    if UserKey !in items || !Truthy(items[UserKey]) then Success(None)
    else match items[UserKey]
      case UserJson(u) => Success(Some(u))
      case NullJson => Success(None)
      case Text(_) => Failure(ParseError)
  }

  // ---------------------------------------------------------------------
  // Writes, as functions of the storage before

  /** `login` writes only when the reply resolved with `success` and data. */
  predicate LoginSucceeded(reply: Reply<Data<LoginResponse>>) {
    reply.Resolved? && reply.response.success && reply.response.data.Present?
  }

  /** Keys other than the token and the user are the same in both maps. */
  ghost predicate OthersUnchanged(before: map<string, Stored>, after: map<string, Stored>) {
    forall k :: k != TokenKey && k != UserKey ==>
      (k in after <==> k in before) && (k in after ==> after[k] == before[k])
  }

  /** The storage after `login`: on success the token and the user are
      stored, and reading them back gives the logged-in user, and an
      authenticated session exactly when the token is non-empty. The stored
      token is the one the API client later sends. */
  function AfterLogin(items: map<string, Stored>, reply: Reply<Data<LoginResponse>>): (r: map<string, Stored>)
    ensures OthersUnchanged(items, r)
    ensures !LoginSucceeded(reply) ==> r == items
    ensures LoginSucceeded(reply) ==>
              var data := reply.response.data.value;
              && TokenKey in r && r[TokenKey] == Text(data.token)
              && (IsAuthenticated(r) <==> data.token != [])
              && GetUser(r) == Success(Some(data.user))
  {
    if LoginSucceeded(reply) then
      var data := reply.response.data.value;
      items[TokenKey := Text(data.token)][UserKey := UserJson(data.user)]
    else items
  }

  /** The storage after `logout`: neither key is left, so nothing reads as a
      session, and every other key is as it was. */
  function AfterLogout(items: map<string, Stored>): (r: map<string, Stored>)
    ensures TokenKey !in r && UserKey !in r && OthersUnchanged(items, r)
    ensures !IsAuthenticated(r) && GetUser(r) == Success(None)
  {
    items - {TokenKey, UserKey}
  }

  predicate ProfileSucceeded(reply: Reply<Data<User>>) {
    reply.Resolved? && reply.response.success
  }

  /** `localStorage.setItem('user', JSON.stringify(data))`: `JSON.stringify`
      of `undefined` is `undefined`, which `setItem` stores as the text
      "undefined". */
  function StoredData(d: Data<User>): Stored {
    match d
    case Present(u) => UserJson(u)
    case Null => NullJson
    case Undefined => Text("undefined")
  }

  /** The storage after `getProfile`: on success the reply's data is stored,
      whatever it is; the token is never touched. Reading the user back
      gives the returned user, no user for `null`, and a parse error for a
      reply without data. */
  function AfterProfile(items: map<string, Stored>, reply: Reply<Data<User>>): (r: map<string, Stored>)
    ensures OthersUnchanged(items, r)
    ensures (TokenKey in r <==> TokenKey in items) && (TokenKey in r ==> r[TokenKey] == items[TokenKey])
    ensures IsAuthenticated(r) == IsAuthenticated(items)
    ensures ProfileSucceeded(reply) && reply.response.data.Present? ==>
              GetUser(r) == Success(Some(reply.response.data.value))
    ensures ProfileSucceeded(reply) && reply.response.data.Null? ==> GetUser(r) == Success(None)
    ensures ProfileSucceeded(reply) && reply.response.data.Undefined? ==> GetUser(r) == Failure(ParseError)
    ensures !ProfileSucceeded(reply) ==> r == items
  {
    if ProfileSucceeded(reply) then items[UserKey := StoredData(reply.response.data)] else items
  }

  // ---------------------------------------------------------------------
  // The operations

  /** `authService.login`: the reply is passed on; a rejection propagates
      without writing anything. */
  method Login(storage: LocalStorage, reply: Reply<Data<LoginResponse>>)
      returns (r: Reply<Data<LoginResponse>>)
    modifies storage
    ensures r == reply
    ensures storage.items == AfterLogin(old(storage.items), reply)
  {
    if LoginSucceeded(reply) {
      var data := reply.response.data.value;
      storage.items := storage.items[TokenKey := Text(data.token)];
      storage.items := storage.items[UserKey := UserJson(data.user)];
    }
    r := reply;
  }

  /** `authService.logout`: removes both keys. */
  method Logout(storage: LocalStorage)
    modifies storage
    ensures storage.items == AfterLogout(old(storage.items))
  {
    storage.items := storage.items - {TokenKey};
    storage.items := storage.items - {UserKey};
  }

  /** `authService.getProfile`: stores the user of a successful reply. */
  method GetProfile(storage: LocalStorage, reply: Reply<Data<User>>) returns (r: Reply<Data<User>>)
    modifies storage
    ensures r == reply
    ensures storage.items == AfterProfile(old(storage.items), reply)
  {
    if ProfileSucceeded(reply) {
      storage.items := storage.items[UserKey := StoredData(reply.response.data)];
    }
    r := reply;
  }

  // ---------------------------------------------------------------------
  // Properties across operations

  /** Logging out twice is logging out once. */
  lemma LogoutIdempotent(items: map<string, Stored>)
    ensures AfterLogout(AfterLogout(items)) == AfterLogout(items)
  {
  }

  /** Logging out after a login leaves the storage as logging out alone would. */
  lemma LogoutUndoesLogin(items: map<string, Stored>, reply: Reply<Data<LoginResponse>>)
    ensures AfterLogout(AfterLogin(items, reply)) == AfterLogout(items)
  {
  }

  /** An empty stored token does not count as a session. */
  lemma EmptyTokenIsAbsent(items: map<string, Stored>)
    ensures IsAuthenticated(items[TokenKey := Text([])]) == IsAuthenticated(items - {TokenKey})
  {
  }
}
