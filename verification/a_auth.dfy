/** Registration, login and profile of the first iteration
    (src/controllers/authController.js). Password hashing, hash comparison and
    token signing are parameters: the model does not look inside them. */
module AuthA {
  import opened Common
  import opened Zod
  import opened SchemaA
  import ValidationA

  /** A user as the API shows it: every column but the password. */
  datatype PublicUser = PublicUser(userId: Id, email: string, name: string, firstName: string, isAdmin: bool)

  function View(id: Id, u: User): (v: PublicUser)
    ensures v.userId == id && v.email == u.email && v.name == u.name
    ensures v.firstName == u.firstName && v.isAdmin == u.isAdmin
  {
    PublicUser(id, u.email, u.name, u.firstName, u.isAdmin)
  }

  /** The body of a successful register or login. */
  datatype Session = Session(user: PublicUser, token: string)

  predicate EmailTaken(users: map<Id, User>, email: string)
  {
    exists id :: id in users && users[id].email == email
  }

  /** `register`. `hash` stands for bcrypt, `sign` for the token issuer,
      `newId` for the generated UUID. */
  function Register(s: Store, body: Body, f: Formats, hash: string -> string, sign: Id -> string, newId: Id)
    : (out: (Response<Session>, Store))
    ensures out.0.Err? ==> out.1 == s
    ensures !Accepts(ValidationA.RegisterSchema, body, f) ==> out.0 == Err(400, "Validation error")
    // An email already registered is refused and nothing is inserted.
    ensures Accepts(ValidationA.RegisterSchema, body, f) && EmailTaken(s.users, TextOf(body, "email")) ==>
      out.0 == Err(400, "User already exists with this email")
    ensures out.0.Ok? <==>
      Accepts(ValidationA.RegisterSchema, body, f) && !EmailTaken(s.users, TextOf(body, "email")) && newId !in s.users
    ensures out.0.Ok? ==>
      && out.0.status == 201
      && newId !in s.users
      && out.1 == s.(users := s.users[newId := User(TextOf(body, "email"), hash(TextOf(body, "password")),
                                                     TextOf(body, "name"), TextOf(body, "firstName"), false)])
      // A new account is never an administrator.
      && !out.0.value.user.isAdmin
      && out.0.value == Session(View(newId, out.1.users[newId]), sign(newId))
  {
    if !Accepts(ValidationA.RegisterSchema, body, f) then (Err(400, "Validation error"), s)
    else
      var email := TextOf(body, "email");
      if EmailTaken(s.users, email) then (Err(400, "User already exists with this email"), s)
      else if newId in s.users then (Err(500, "Internal server error"), s)
      else
        var user := User(email, hash(TextOf(body, "password")), TextOf(body, "name"), TextOf(body, "firstName"), false);
        (Ok(201, Session(View(newId, user), sign(newId))), s.(users := s.users[newId := user]))
  }

  /** Registration keeps emails unique and the database consistent. */
  lemma RegisterKeepsValid(s: Store, body: Body, f: Formats, hash: string -> string, sign: Id -> string, newId: Id)
    requires Valid(s)
    ensures Valid(Register(s, body, f, hash, sign, newId).1)
  {
  }

  /** The user with this email, if any. Emails are unique in this schema, so
      the query's `limit(1)` has at most one row to choose from. */
  ghost function UserByEmail(users: map<Id, User>, email: string): (r: Option<Id>)
    ensures r.Some? ==> r.value in users && users[r.value].email == email
    ensures r.None? <==> !EmailTaken(users, email)
  {
    if EmailTaken(users, email) then
      var id :| id in users && users[id].email == email; Some(id)
    else None
  }

  /** `login`. `matches(password, hash)` stands for `bcrypt.compare`. */
  ghost function Login(s: Store, body: Body, f: Formats, matches: (string, string) -> bool, sign: Id -> string)
    : (r: Response<Session>)
    ensures !Accepts(ValidationA.LoginSchema, body, f) ==> r == Err(400, "Validation error")
    // Unknown email and wrong password give the same answer.
    ensures Accepts(ValidationA.LoginSchema, body, f) && !EmailTaken(s.users, TextOf(body, "email")) ==>
      r == Err(401, "Invalid credentials")
    ensures r.Err? && Accepts(ValidationA.LoginSchema, body, f) ==> r == Err(401, "Invalid credentials")
    ensures r.Ok? ==>
      && Accepts(ValidationA.LoginSchema, body, f)
      && r.status == 200
      && r.value.user.userId in s.users
      && s.users[r.value.user.userId].email == TextOf(body, "email")
      && matches(TextOf(body, "password"), s.users[r.value.user.userId].password)
      && r.value == Session(View(r.value.user.userId, s.users[r.value.user.userId]), sign(r.value.user.userId))
  {
    if !Accepts(ValidationA.LoginSchema, body, f) then Err(400, "Validation error")
    else
      var found := UserByEmail(s.users, TextOf(body, "email"));
      if found.None? then Err(401, "Invalid credentials")
      else
        var user := s.users[found.value];
        if !matches(TextOf(body, "password"), user.password) then Err(401, "Invalid credentials")
        else Ok(200, Session(View(found.value, user), sign(found.value)))
  }

  /** With unique emails, login succeeds exactly for the registered email and
      a password matching its stored hash. */
  lemma LoginSucceedsIff(s: Store, body: Body, f: Formats, matches: (string, string) -> bool, sign: Id -> string)
    requires EmailsUnique(s.users)
    requires Accepts(ValidationA.LoginSchema, body, f)
    ensures Login(s, body, f, matches, sign).Ok? <==>
      exists id :: id in s.users && s.users[id].email == TextOf(body, "email")
                   && matches(TextOf(body, "password"), s.users[id].password)
  {
  }

  /** `getProfile`: the requester's own record, without the password. */
  function GetProfile(s: Store, u: Id): (r: Response<PublicUser>)
    ensures r.Err? <==> u !in s.users
    ensures r.Err? ==> r == Err(404, "User not found")
    ensures r.Ok? ==> r.status == 200 && r.value == View(u, s.users[u])
  {
    if u !in s.users then Err(404, "User not found") else Ok(200, View(u, s.users[u]))
  }
}
