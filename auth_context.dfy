/** The signed-in user shared by every page: restored from browser storage when the app
    mounts, set by the mock login and registration, cleared by logout. Storage is a single
    optional slot; serialising a user and reading it back is taken to give the same user. */
module AuthContext {
  import opened Wrappers
  import opened Strings

  datatype Role = Student | Instructor | Admin

  datatype User = User(id: string, name: string, email: string, role: Role)

  /** What the "user" storage slot holds: a serialised user, or text that does not parse. */
  datatype StoredUser = Record(user: User) | Unparseable(raw: string)

  const LoginId := "123"
  const RegisteredIdPrefix := "user_"

  /** `email.split('@')[0]`: the text before the first `@`, or all of it when there is none. */
  function BeforeAt(email: string): (r: string)
    ensures |r| <= |email| && r == email[..|r|]
    ensures '@' !in r
    ensures |r| < |email| ==> email[|r|] == '@'
  {
    if email == [] || email[0] == '@' then []
    else [email[0]] + BeforeAt(email[1..])
  }

  /** The mock account a login produces; the password plays no part. */
  function LoginUser(email: string): (u: User)
  {
    User(LoginId, BeforeAt(email), email, if Contains(email, "instructor") then Instructor else Student)
  }

  /** The login user keeps the email, is named after its local part, and is an instructor
      exactly when "instructor" occurs in the email; a login never makes an administrator. */
  lemma LoginUserFacts(email: string)
    ensures var u := LoginUser(email);
      u.id == "123" && u.email == email && u.role != Admin
      && (u.role == Instructor <==> exists i :: OccursAt(email, "instructor", i))
      && '@' !in u.name && email[..|u.name|] == u.name
      && (|u.name| < |email| ==> email[|u.name|] == '@')
  {
  }

  /** An address with no `@` names the user after the whole address. */
  lemma {:induction false} BeforeAtWithoutAt(email: string)
    requires '@' !in email
    ensures BeforeAt(email) == email
  {
    if email != [] {
      BeforeAtWithoutAt(email[1..]);
      assert email == [email[0]] + email[1..];
    }
  }

  /** The account registration creates: the given name, email and role, with an id built from
      the clock reading `stamp`. */
  function RegisteredUser(name: string, email: string, role: Role, stamp: string): (u: User)
    requires role != Admin
    ensures u.name == name && u.email == email && u.role == role
    ensures |u.id| == |RegisteredIdPrefix| + |stamp|
    ensures u.id[..|RegisteredIdPrefix|] == RegisteredIdPrefix && u.id[|RegisteredIdPrefix|..] == stamp
  {
    User(RegisteredIdPrefix + stamp, name, email, role)
  }

  class AuthProvider {
    var currentUser: Option<User>
    var loading: bool
    var error: Option<string>
    var storage: Option<StoredUser>

    /** Whoever is signed in is the user held in storage. */
    ghost predicate Valid()
      reads this
    {
      currentUser.Some? ==> storage == Some(Record(currentUser.value))
    }

    /** Before the mount effect runs: nobody signed in, still loading. */
    constructor (stored: Option<StoredUser>)
      ensures Valid()
      ensures currentUser.None? && loading && error.None? && storage == stored
    {
      currentUser, loading, error, storage := None, true, None, stored;
    }

    /** Restore the session: a stored user is signed in again, unparseable text is removed,
        and an empty slot (or empty text, which is falsy) is left alone. */
    method Mount()
      requires Valid()
      modifies this
      ensures Valid() && !loading && error == old(error)
      ensures match old(storage)
        case Some(Record(u)) => currentUser == Some(u) && storage == old(storage)
        case Some(Unparseable(raw)) =>
          if raw == [] then currentUser == old(currentUser) && storage == old(storage)
          else currentUser == old(currentUser) && storage.None?
        case None => currentUser == old(currentUser) && storage == old(storage)
    {
      if storage.Some? {
        var stored := storage.value;
        match stored
        case Record(u) =>
          currentUser := Some(u);
        case Unparseable(raw) =>
          if raw != [] {
            storage := None;
          }
      }
      loading := false;
    }

    method Login(email: string, password: string)
      requires Valid()
      modifies this
      ensures Valid()
      ensures currentUser == Some(LoginUser(email)) && storage == Some(Record(LoginUser(email)))
      ensures !loading && error.None?
    {
      error := None;
      loading := true;
      var mockUser := LoginUser(email);
      storage := Some(Record(mockUser));
      currentUser := Some(mockUser);
      loading := false;
    }

    /** `stamp` is the clock reading the new id is made from. */
    method Register(name: string, email: string, password: string, role: Role, stamp: string)
      requires Valid()
      requires role != Admin
      modifies this
      ensures Valid()
      ensures currentUser == Some(RegisteredUser(name, email, role, stamp))
      ensures storage == Some(Record(RegisteredUser(name, email, role, stamp)))
      ensures !loading && error.None?
    {
      error := None;
      loading := true;
      var mockUser := RegisteredUser(name, email, role, stamp);
      storage := Some(Record(mockUser));
      currentUser := Some(mockUser);
      loading := false;
    }

    method Logout()
      requires Valid()
      modifies this
      ensures Valid()
      ensures currentUser.None? && storage.None?
      ensures loading == old(loading) && error == old(error)
    {
      storage := None;
      currentUser := None;
    }
  }

  /** A login survives a reload: a fresh provider over the same storage restores the user. */
  method LoginSurvivesReload(email: string, password: string)
  {
    var first := new AuthProvider(None);
    first.Mount();
    first.Login(email, password);
    var second := new AuthProvider(first.storage);
    second.Mount();
    assert second.currentUser == first.currentUser == Some(LoginUser(email));
    second.Logout();
    var third := new AuthProvider(second.storage);
    third.Mount();
    assert third.currentUser.None?;
  }
}
