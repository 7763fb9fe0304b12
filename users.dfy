/** The user controller: signup, login, logout and Google sign-in as
    operations on the user collection. Hashing is symbolic, the salt and
    the generated Google password are parameters, and the JWT cookie is
    represented by the user id it carries. */
module Users {
  import opened Wrappers

  /** A bcrypt hash, kept symbolic: the salt it was made with and the
      secret it hides. It is never equal to a plain string. */
  datatype PasswordHash = Bcrypt(salt: string, secret: string)

  function Hash(password: string, salt: string): PasswordHash {
    Bcrypt(salt, password)
  }

  /** `bcrypt.compare`: the password hashes to `h` under `h`'s salt. */
  predicate Matches(password: string, h: PasswordHash) {
    h.secret == password
  }

  /** A stored user document. */
  datatype User = User(
    id: nat,
    firstname: string,
    lastname: string,
    email: string,
    password: PasswordHash,
    profilePicture: Option<string>)

  /** A user document with its password field removed. */
  datatype Profile = Profile(id: nat, firstname: string, lastname: string, email: string, profilePicture: Option<string>)

  function ProfileOf(u: User): Profile {
    Profile(u.id, u.firstname, u.lastname, u.email, u.profilePicture)
  }

  datatype Body =
    | SignedUp(success: bool, id: nat, firstname: string, lastname: string, email: string)
    | LoggedIn(id: nat, firstname: string, lastname: string, email: string)
    | Document(profile: Profile)
    | ErrorMessage(message: string)
    | Notice(message: string)

  /** The `jwt` cookie a reply sets: a token for a user id, or an expired
      empty cookie. */
  datatype Cookie = NoCookie | SetToken(userId: nat) | ClearToken

  datatype Reply = Reply(status: nat, body: Body, cookie: Cookie)

  const FillAllFields: string := "Please fill all the fields"
  const AlreadyExists: string := "User already exists"
  const NotFound: string := "User not found"
  const InvalidPassword: string := "Invalid password"

  predicate EmailsUnique(users: seq<User>) {
    forall i, j :: 0 <= i < j < |users| ==> users[i].email != users[j].email
  }

  predicate IdsUnique(users: seq<User>) {
    forall i, j :: 0 <= i < j < |users| ==> users[i].id != users[j].id
  }

  /** `findOne({ email })`: the first document with that email. */
  function FindByEmail(users: seq<User>, email: string): (r: Option<nat>)
    ensures r.Some? ==> r.value < |users| && users[r.value].email == email
                        && forall j :: 0 <= j < r.value ==> users[j].email != email
    ensures r.None? ==> forall j :: 0 <= j < |users| ==> users[j].email != email
  {
    if users == [] then None
    else if users[0].email == email then Some(0)
    else match FindByEmail(users[1..], email)
      case None => None
      case Some(i) => Some(i + 1)
  }

  /** With unique emails, looking up a user's email finds that user. */
  lemma {:induction false} FindUnique(users: seq<User>, i: nat)
    requires EmailsUnique(users) && i < |users|
    ensures FindByEmail(users, users[i].email) == Some(i)
  {
    if i > 0 {
      assert users[0].email != users[i].email;
      assert users[1..][i - 1] == users[i];
      FindUnique(users[1..], i - 1);
    }
  }

  /** A user appended under an email nobody has keeps the emails unique
      and is found by that email. */
  lemma AppendFresh(users: seq<User>, u: User)
    requires EmailsUnique(users)
    requires FindByEmail(users, u.email).None?
    ensures EmailsUnique(users + [u])
    ensures FindByEmail(users + [u], u.email) == Some(|users|)
  {
    FindUnique(users + [u], |users|);
  }

  /** The user a successful signup stores is the one a login with the
      same email finds, and the same password matches its hash. */
  lemma SignupThenLogin(users: seq<User>, nextId: nat, firstname: string, lastname: string,
                        email: string, password: string, salt: string)
    requires EmailsUnique(users)
    requires FindByEmail(users, email).None?
    ensures var stored := users + [User(nextId, firstname, lastname, email, Hash(password, salt), None)];
      && FindByEmail(stored, email) == Some(|users|)
      && Matches(password, stored[|users|].password)
  {
    AppendFresh(users, User(nextId, firstname, lastname, email, Hash(password, salt), None));
  }

  class UserRegistry {
    /** The user collection, in insertion order. */
    var users: seq<User>
    /** The id the next saved document receives. */
    var nextId: nat

    ghost predicate Valid()
      reads this
    {
      && EmailsUnique(users)
      && IdsUnique(users)
      && forall i :: 0 <= i < |users| ==> users[i].id < nextId
    }

    constructor ()
      ensures Valid() && users == [] && nextId == 0
    {
      users := [];
      nextId := 0;
    }

    /** Appends a new document with a fresh id. */
    method Save(firstname: string, lastname: string, email: string, password: PasswordHash,
                profilePicture: Option<string>) returns (u: User)
      requires Valid()
      requires FindByEmail(users, email).None?
      modifies this
      ensures Valid()
      ensures u == User(old(nextId), firstname, lastname, email, password, profilePicture)
      ensures users == old(users) + [u] && nextId == old(nextId) + 1
    {
      u := User(nextId, firstname, lastname, email, password, profilePicture);
      AppendFresh(users, u);
      users := users + [u];
      nextId := nextId + 1;
    }

    /** `signupUser`: the field check comes first, then the email lookup;
      only a new email stores a user, with the password hashed. */
    method Signup(firstname: string, lastname: string, email: string, password: string, salt: string)
      returns (reply: Reply)
      requires Valid()
      modifies this
      ensures Valid()
      ensures firstname == "" || lastname == "" || email == "" || password == "" ==>
                reply == Reply(400, ErrorMessage(FillAllFields), NoCookie) && unchanged(this)
      ensures firstname != "" && lastname != "" && email != "" && password != "" ==>
                if FindByEmail(old(users), email).Some? then
                  reply == Reply(400, ErrorMessage(AlreadyExists), NoCookie) && unchanged(this)
                else
                  var id := old(nextId);
                  && users == old(users) + [User(id, firstname, lastname, email, Hash(password, salt), None)]
                  && nextId == id + 1
                  && reply == Reply(201, SignedUp(true, id, firstname, lastname, email), SetToken(id))
    {
      if firstname == "" || lastname == "" || email == "" || password == "" {
        return Reply(400, ErrorMessage(FillAllFields), NoCookie);
      }
      if FindByEmail(users, email).Some? {
        return Reply(400, ErrorMessage(AlreadyExists), NoCookie);
      }
      var u := Save(firstname, lastname, email, Hash(password, salt), None);
      reply := Reply(201, SignedUp(true, u.id, u.firstname, u.lastname, u.email), SetToken(u.id));
    }

    /** `loginUser`: 404 for an unknown email, 401 for a wrong password,
      otherwise 200 with the user's id, names and email and a token for
      that id. The store is only read. */
    method Login(email: string, password: string) returns (reply: Reply)
      ensures FindByEmail(users, email).None? ==> reply == Reply(404, ErrorMessage(NotFound), NoCookie)
      ensures FindByEmail(users, email).Some? ==>
                var u := users[FindByEmail(users, email).value];
                if Matches(password, u.password) then
                  reply == Reply(200, LoggedIn(u.id, u.firstname, u.lastname, u.email), SetToken(u.id))
                else
                  reply == Reply(401, ErrorMessage(InvalidPassword), NoCookie)
      ensures reply.cookie.SetToken? <==> reply.status == 200
    {
      var found := FindByEmail(users, email);
      if found.None? {
        return Reply(404, ErrorMessage(NotFound), NoCookie);
      }
      var u := users[found.value];
      if !Matches(password, u.password) {
        return Reply(401, ErrorMessage(InvalidPassword), NoCookie);
      }
      reply := Reply(200, LoggedIn(u.id, u.firstname, u.lastname, u.email), SetToken(u.id));
    }

    /** `logoutUser`: expires the cookie. */
    method Logout() returns (reply: Reply)
      ensures reply.status == 200 && reply.cookie == ClearToken && reply.body.Notice?
    {
      reply := Reply(200, Notice("Logged out successfully"), ClearToken);
    }

    /** `google`: an existing email signs that user in unchanged; a new
      email stores a user named `name` twice, with the Google photo and a
      hashed generated password. The reply carries the document without
      its password. */
    method Google(name: string, email: string, googlePhotoUrl: Option<string>, generated: string, salt: string)
      returns (reply: Reply)
      requires Valid()
      modifies this
      ensures Valid()
      ensures FindByEmail(old(users), email).Some? ==>
                var u := old(users)[FindByEmail(old(users), email).value];
                reply == Reply(200, Document(ProfileOf(u)), SetToken(u.id)) && unchanged(this)
      ensures FindByEmail(old(users), email).None? ==>
                var u := User(old(nextId), name, name, email, Hash(generated, salt), googlePhotoUrl);
                && users == old(users) + [u]
                && nextId == old(nextId) + 1
                && reply == Reply(200, Document(ProfileOf(u)), SetToken(u.id))
    {
      var found := FindByEmail(users, email);
      if found.Some? {
        var u := users[found.value];
        return Reply(200, Document(ProfileOf(u)), SetToken(u.id));
      }
      var u := Save(name, name, email, Hash(generated, salt), googlePhotoUrl);
      reply := Reply(200, Document(ProfileOf(u)), SetToken(u.id));
    }
  }
}
