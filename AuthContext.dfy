/** The session provider (`AuthProvider` in `src/store/AuthContext.tsx`):
    two state cells, `isAuthenticated` and `user`, seeded from storage and
    changed only by `login`, `logout` and the profile-reconciling effect.
    Each asynchronous operation is one method that receives the reply its
    request settles with. */
module AuthContext {
  import opened Wrappers
  import opened AuthService

  /** How an `async` operation of the provider ends: it returns, or the
      promise it gave rejects with a reason. */
  datatype Completion = Returned | Threw(reason: Rejection)

  /** What reading `.user` of a successful login reply without data throws. */
  function MissingDataError(d: Data<LoginResponse>): string {
    "TypeError: Cannot read properties of " + (if d.Null? then "null" else "undefined") + " (reading 'user')"
  }

  /** The values of the two state cells. */
  datatype Session = Session(isAuthenticated: bool, user: Option<User>)

  /** The cells a provider mounted on this storage starts with. */
  function Restored(items: map<string, Stored>): Session
    requires GetUser(items).Success?
  {
    Session(IsAuthenticated(items), GetUser(items).value)
  }

  /** `signup` and `verifyEmail`: return on success, otherwise throw the
      reply's description, or pass on the rejection. */
  function Outcome<T>(reply: Reply<T>): (c: Completion)
    ensures c.Returned? <==> reply.Resolved? && reply.response.success
    ensures reply.Resolved? && !reply.response.success ==> c == Threw(ErrorObject(reply.response.responseDesc))
    ensures reply.Rejected? ==> c == Threw(reply.reason)
  {
    match reply
    case Rejected(e) => Threw(e)
    case Resolved(response) =>
      if response.success then Returned else Threw(ErrorObject(response.responseDesc))
  }

  class AuthProvider {
    const storage: LocalStorage
    var isAuthenticated: bool
    var user: Option<User>

    function Cells(): Session
      reads this
    {
      Session(isAuthenticated, user)
    }

    /** Mounting: both cells are read from storage. Reading a stored user
        that is not valid JSON throws during mounting, so it is excluded. */
    constructor (storage: LocalStorage)
      requires GetUser(storage.items).Success?
      ensures this.storage == storage
      ensures Cells() == Restored(storage.items)
    {
      this.storage := storage;
      isAuthenticated := IsAuthenticated(storage.items);
      user := GetUser(storage.items).value;
    }

    /** The profile effect requests the profile only for an authenticated
        session that has no user. */
    predicate ProfileEffectFires()
      reads this
    {
      isAuthenticated && user.None?
    }

    /** One run of the profile effect, with the reply to its request. A
        successful reply sets the user; a reply without success changes
        nothing; a rejection resets the session. The storage changes only as
        `getProfile` changes it. */
    method ReconcileProfile(reply: Reply<Data<User>>)
      modifies this, storage
      ensures !old(ProfileEffectFires()) ==> Cells() == old(Cells()) && storage.items == old(storage.items)
      ensures old(ProfileEffectFires()) ==> storage.items == AfterProfile(old(storage.items), reply)
      ensures old(ProfileEffectFires()) && ProfileSucceeded(reply) && reply.response.data.Present? ==>
                Cells() == Session(true, Some(reply.response.data.value))
      ensures old(ProfileEffectFires()) && ProfileSucceeded(reply) && !reply.response.data.Present? ==>
                Cells() == old(Cells())
      ensures old(ProfileEffectFires()) && reply.Resolved? && !reply.response.success ==>
                Cells() == old(Cells())
      ensures old(ProfileEffectFires()) && reply.Rejected? ==> Cells() == Session(false, None)
    {
      if isAuthenticated && user.None? {
        var response := AuthService.GetProfile(storage, reply);
        match response
        case Resolved(r) =>
          if r.success {
            user := if r.data.Present? then Some(r.data.value) else None;
            storage.items := storage.items[UserKey := StoredData(r.data)];
          }
        case Rejected(_) =>
          isAuthenticated := false;
          user := None;
      }
    }

    /** `login`: a successful reply authenticates the session with the
        returned user; a reply without success throws its description and a
        rejection propagates, both leaving the cells as they were. A
        successful reply without data sets `isAuthenticated` and then throws
        on reading its user. */
    method Login(reply: Reply<Data<LoginResponse>>) returns (c: Completion)
      modifies this, storage
      ensures storage.items == AfterLogin(old(storage.items), reply)
      ensures reply.Rejected? ==> c == Threw(reply.reason) && Cells() == old(Cells())
      ensures reply.Resolved? && !reply.response.success ==>
                c == Threw(ErrorObject(reply.response.responseDesc)) && Cells() == old(Cells())
      ensures reply.Resolved? && reply.response.success && !reply.response.data.Present? ==>
                c == Threw(ErrorObject(MissingDataError(reply.response.data))) && Cells() == Session(true, old(user))
      ensures LoginSucceeded(reply) ==>
                c == Returned && Cells() == Session(true, Some(reply.response.data.value.user))
    {
      var response := AuthService.Login(storage, reply);
      match response
      case Rejected(e) =>
        c := Threw(e);
      case Resolved(r) =>
        if r.success {
          isAuthenticated := true;
          match r.data
          case Present(data) =>
            user := Some(data.user);
            c := Returned;
          case _ =>
            c := Threw(ErrorObject(MissingDataError(r.data)));
        } else {
          c := Threw(ErrorObject(r.responseDesc));
        }
    }

    /** `signup`: never touches the cells or the storage. */
    method Signup(reply: Reply<SignupResponse>) returns (c: Completion)
      ensures c == Outcome(reply)
    {
      match reply
      case Rejected(e) =>
        c := Threw(e);
      case Resolved(r) =>
        c := if r.success then Returned else Threw(ErrorObject(r.responseDesc));
    }

    /** `verifyEmail`: never touches the cells or the storage. */
    method VerifyEmail(reply: Reply<()>) returns (c: Completion)
      ensures c == Outcome(reply)
    {
      match reply
      case Rejected(e) =>
        c := Threw(e);
      case Resolved(r) =>
        c := if r.success then Returned else Threw(ErrorObject(r.responseDesc));
    }

    /** `logout`: clears the stored session and both cells. */
    method Logout()
      modifies this, storage
      ensures storage.items == AfterLogout(old(storage.items))
      ensures Cells() == Session(false, None)
    {
      AuthService.Logout(storage);
      isAuthenticated := false;
      user := None;
    }
  }

  // ---------------------------------------------------------------------
  // The cells against what a fresh provider would read from storage

  /** After a successful login with a non-empty token, a provider mounted
      afresh on the storage starts with the cells the login set. */
  lemma LoginPersists(items: map<string, Stored>, reply: Reply<Data<LoginResponse>>)
    requires LoginSucceeded(reply) && reply.response.data.value.token != []
    ensures GetUser(AfterLogin(items, reply)).Success?
    ensures Restored(AfterLogin(items, reply)) == Session(true, Some(reply.response.data.value.user))
  {
  }

  /** A successful login whose token is empty sets `isAuthenticated` in
      memory, but the stored session reads as signed out. */
  lemma EmptyTokenLoginNotPersisted(items: map<string, Stored>, reply: Reply<Data<LoginResponse>>)
    requires LoginSucceeded(reply) && reply.response.data.value.token == []
    ensures GetUser(AfterLogin(items, reply)).Success?
    ensures !Restored(AfterLogin(items, reply)).isAuthenticated
  {
  }

  /** After logout, a provider mounted afresh starts signed out. */
  lemma LogoutPersists(items: map<string, Stored>)
    ensures GetUser(AfterLogout(items)).Success?
    ensures Restored(AfterLogout(items)) == Session(false, None)
  {
  }

  /** A stored token without a user makes a fresh provider run the profile
      effect; a successful reply then leaves storage that restores the same
      session as the cells. */
  lemma ProfilePersists(items: map<string, Stored>, reply: Reply<Data<User>>)
    requires IsAuthenticated(items) && GetUser(items) == Success(None)
    requires ProfileSucceeded(reply) && reply.response.data.Present?
    ensures GetUser(AfterProfile(items, reply)).Success?
    ensures Restored(AfterProfile(items, reply)) == Session(true, Some(reply.response.data.value))
  {
  }

  /** A successful profile reply without a `data` field stores the text
      "undefined": the cells keep their values, but a provider mounted
      afresh on that storage throws while reading the user. */
  lemma MissingProfileBreaksRemount(items: map<string, Stored>, reply: Reply<Data<User>>)
    requires ProfileSucceeded(reply) && reply.response.data.Undefined?
    ensures GetUser(AfterProfile(items, reply)) == Failure(ParseError)
    ensures GetUser(items).Success? ==> GetUser(AfterProfile(items, reply)) != GetUser(items)
  {
  }

  /** A rejected profile request resets the cells but not the storage: a
      provider mounted afresh starts authenticated again. */
  lemma RejectedProfileNotPersisted(items: map<string, Stored>, reason: Rejection)
    requires IsAuthenticated(items) && GetUser(items) == Success(None)
    ensures AfterProfile(items, Rejected(reason)) == items
    ensures Restored(AfterProfile(items, Rejected(reason))) == Session(true, None)
  {
  }
}
