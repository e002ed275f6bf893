/** Bearer-token authentication: resolving the presented token to its user
    (an expired token is deleted), registration and login, which each hand
    out a fresh token replacing the user's previous one, and logout.  The
    token generator, the password hash and its check, and the clock are
    parameters. */
module Auth {
  import opened Common
  import opened Models
  import Schemas

  /** Seven days, in seconds: the lifetime of a token. */
  const TokenLifetime: int := 7 * 24 * 60 * 60

  /** What registration and login answer. */
  datatype TokenOut = TokenOut(token: string, tokenType: string, expiresAt: int)

  /** The `token_type` default of the response. */
  const Bearer: string := "Bearer"

  /** The user the bearer credentials `creds` identify at time `now`.  An
      expired token row is deleted before the request is refused. */
  method GetCurrentUser(db: Database, creds: Option<string>, now: int) returns (r: Result<User>)
    requires TokensValid(db.tokens, db.users)
    modifies db`tokens
    ensures TokensValid(db.tokens, db.users)
    ensures creds.None? || creds.value == "" ==> r == Err(401, "Missing or invalid Authorization header") && db.tokens == old(db.tokens)
    ensures creds.Some? && creds.value != "" && FindToken(old(db.tokens), PyStrip(creds.value)).None?
        ==> r == Err(401, "Token not found") && db.tokens == old(db.tokens)
    ensures creds.Some? && creds.value != "" && FindToken(old(db.tokens), PyStrip(creds.value)).Some?
        ==> var k := FindToken(old(db.tokens), PyStrip(creds.value)).value;
            if old(db.tokens)[k].expiresAt <= now then
              r == Err(401, "Token expired") && db.tokens == old(db.tokens) - {k}
            else if k !in db.users then r == Err(401, "User not found") && db.tokens == old(db.tokens)
            else r == Ok(db.users[k]) && db.tokens == old(db.tokens)
    ensures r.Ok? ==> db.tokens == old(db.tokens)
    ensures r.Ok? ==> creds.Some? && FindToken(old(db.tokens), PyStrip(creds.value)).Some?
                      && var k := FindToken(old(db.tokens), PyStrip(creds.value)).value;
                         old(db.tokens)[k].expiresAt > now && k in db.users && r.value == db.users[k]
  {
    if creds.None? || creds.value == "" {
      return Err(401, "Missing or invalid Authorization header");
    }
    var value := PyStrip(creds.value);
    var holder := FindToken(db.tokens, value);
    if holder.None? {
      return Err(401, "Token not found");
    }
    var k := holder.value;
    if db.tokens[k].expiresAt <= now {
      RemovalKeepsTokensValid(db.tokens, db.users, {k});
      db.tokens := db.tokens - {k};
      return Err(401, "Token expired");
    }
    if k !in db.users {
      return Err(401, "User not found");
    }
    r := Ok(db.users[k]);
  }

  /** The row `register` adds as written: address and hash only. */
  function BareUser(users: map<int, User>, email: string, hashed: string, now: int): (u: User)
    ensures u.id == NewId(users.Keys) && u.email == email && u.hashedPassword == hashed
    ensures u.name.None? && u.roleId.None?
  {
    User(NewId(users.Keys), email, hashed, None, None, None, None, None, None, None, now)
  }

  /** The first commit of a new user row: the stored row, or the 500 of
      the IntegrityError a NOT NULL column raises. */
  function CommitUser(u: User): (r: Result<User>)
    ensures r.Ok? <==> MeetsNotNull(u)
    ensures r.Ok? ==> r.value == u
    ensures r.Err? ==> r == Err(500, IntegrityErrorDetail)
  {
    if MeetsNotNull(u) then Ok(u) else Err(500, IntegrityErrorDetail)
  }

  /** `register` as written, up to its first commit: 400 for an address in
      use, otherwise the commit of the bare row. */
  function RegisterAsWritten(users: map<int, User>, email: string, hashed: string, now: int): Result<User> {
    if HasEmail(users, email) then Err(400, "Email already registered")
    else CommitUser(BareUser(users, email, hashed, now))
  }

  /** As written, registration never stores a user: the bare row misses
      the NOT NULL `name` and `role_id`, so the commit fails with 500 and
      the token is never issued. */
  lemma RegisterNeverStoresAsWritten(users: map<int, User>, email: string, hashed: string, now: int)
    ensures RegisterAsWritten(users, email, hashed, now)
            == if HasEmail(users, email) then Err(400, "Email already registered") else Err(500, IntegrityErrorDetail)
  {
  }

  /** The row registration evidently means to store: the profile fields of
      the body, and its role, or `defaultRole` (the tester role) when it
      names none. */
  function NewUser(users: map<int, User>, body: Schemas.RegisterBody, hashed: string, defaultRole: int, now: int): (u: User)
    ensures u.id == NewId(users.Keys) && u.email == body.email && u.hashedPassword == hashed
    ensures u.name == body.name && u.organizationId == body.organizationId && u.createdAt == now
    ensures u.roleId == Some(if body.roleId.Some? then body.roleId.value else defaultRole)
  {
    User(NewId(users.Keys), body.email, hashed, body.name, body.tel, body.address, body.city, body.country,
         Some(if body.roleId.Some? then body.roleId.value else defaultRole), body.organizationId, now)
  }

  /** Registers the body's user with password hash `hashed`, then gives it
      the token `tok`.  The user is committed before the token: a token
      value already held by someone else fails the second commit and
      leaves the new user without a token.  A body without a name (which
      validation refuses before this) fails the first commit. */
  method Register(db: Database, body: Schemas.RegisterBody, hashed: string, defaultRole: int, tok: string, now: int)
    returns (r: Result<TokenOut>)
    requires UsersValid(db.users) && TokensValid(db.tokens, db.users)
    modifies db`users, db`tokens
    ensures UsersValid(db.users) && TokensValid(db.tokens, db.users)
    ensures HasEmail(old(db.users), body.email) ==> r == Err(400, "Email already registered")
    ensures !HasEmail(old(db.users), body.email) && body.name.None? ==> r == Err(500, IntegrityErrorDetail)
    ensures r.Err? && (r.status == 400 || body.name.None?) ==> db.users == old(db.users) && db.tokens == old(db.tokens)
    ensures !HasEmail(old(db.users), body.email) && body.name.Some? ==>
      var u := NewUser(old(db.users), body, hashed, defaultRole, now);
      && MeetsNotNull(u)
      && db.users == old(db.users)[u.id := u]
      && ((exists k :: k in old(db.tokens) && old(db.tokens)[k].token == tok) ==>
            r == Err(500, IntegrityErrorDetail) && db.tokens == old(db.tokens))
      && ((forall k :: k in old(db.tokens) ==> old(db.tokens)[k].token != tok) ==>
            r == Ok(TokenOut(tok, Bearer, now + TokenLifetime))
            && db.tokens == old(db.tokens)[u.id := Token(u.id, tok, now + TokenLifetime)])
  {
    if HasEmail(db.users, body.email) {
      return Err(400, "Email already registered");
    }
    var u := NewUser(db.users, body, hashed, defaultRole, now);
    var committed := CommitUser(u);
    if committed.Err? {
      return Err(500, IntegrityErrorDetail);
    }
    InsertKeepsUsersValid(db.users, u);
    NewUserKeepsTokensValid(db.tokens, db.users, u);
    db.users := db.users[u.id := u];
    var exp := now + TokenLifetime;
    r := ReplaceToken(db, u.id, tok, exp);
  }

  /** A body that passes validation gives a row the database takes. */
  lemma ValidatedBodyMeetsNotNull(users: map<int, User>, body: Schemas.RegisterBody, isEmail: string -> bool,
                                  hashed: string, defaultRole: int, now: int)
    requires Schemas.ValidateRegister(body, isEmail).Ok?
    ensures MeetsNotNull(NewUser(users, body, hashed, defaultRole, now))
  {
  }

  /** Logs in the user with address `email` when `passwordOk` (the hash
      check of the given password against the stored hash) holds for it,
      replacing its token by `tok`.  An unknown address and a wrong
      password get the same answer. */
  method Login(db: Database, email: string, passwordOk: string -> bool, tok: string, now: int)
    returns (r: Result<TokenOut>)
    requires UsersValid(db.users) && TokensValid(db.tokens, db.users)
    modifies db`tokens
    ensures TokensValid(db.tokens, db.users)
    ensures FindUserByEmail(db.users, email).None? ==> r == Err(401, "Invalid email or password")
    ensures FindUserByEmail(db.users, email).Some?
        ==> var id := FindUserByEmail(db.users, email).value;
            if !passwordOk(db.users[id].hashedPassword) then
              r == Err(401, "Invalid email or password") && db.tokens == old(db.tokens)
            else if exists k :: k in old(db.tokens) && k != id && old(db.tokens)[k].token == tok then
              r == Err(500, IntegrityErrorDetail) && db.tokens == old(db.tokens)
            else
              r == Ok(TokenOut(tok, Bearer, now + TokenLifetime))
              && db.tokens == old(db.tokens)[id := Token(id, tok, now + TokenLifetime)]
    ensures r.Err? ==> db.tokens == old(db.tokens)
  {
    var found := FindUserByEmail(db.users, email);
    if found.None? || !passwordOk(db.users[found.value].hashedPassword) {
      return Err(401, "Invalid email or password");
    }
    r := ReplaceToken(db, found.value, tok, now + TokenLifetime);
  }

  /** Deletes the token of user `id` and inserts `Token(id, tok, exp)`, in
      one commit; the commit fails when another user holds `tok`. */
  method ReplaceToken(db: Database, id: int, tok: string, exp: int) returns (r: Result<TokenOut>)
    requires id in db.users && TokensValid(db.tokens, db.users)
    modifies db`tokens
    ensures TokensValid(db.tokens, db.users)
    ensures (exists k :: k in old(db.tokens) && k != id && old(db.tokens)[k].token == tok) ==>
      r == Err(500, IntegrityErrorDetail) && db.tokens == old(db.tokens)
    ensures (forall k :: k in old(db.tokens) && k != id ==> old(db.tokens)[k].token != tok) ==>
      r == Ok(TokenOut(tok, Bearer, exp)) && db.tokens == old(db.tokens)[id := Token(id, tok, exp)]
  {
    if exists k :: k in db.tokens && k != id && db.tokens[k].token == tok {
      return Err(500, IntegrityErrorDetail);
    }
    ReplacementKeepsTokensValid(db.tokens, db.users, Token(id, tok, exp));
    db.tokens := db.tokens[id := Token(id, tok, exp)];
    r := Ok(TokenOut(tok, Bearer, exp));
  }

  datatype LogoutOut = LoggedOut(status: string)

  /** Resolves the caller as every protected handler does, then deletes
      the presented token. */
  method Logout(db: Database, creds: Option<string>, now: int) returns (r: Result<LogoutOut>)
    requires TokensValid(db.tokens, db.users)
    modifies db`tokens
    ensures TokensValid(db.tokens, db.users)
    ensures creds.None? || creds.value == "" ==>
      r == Err(401, "Missing or invalid Authorization header") && db.tokens == old(db.tokens)
    ensures creds.Some? && creds.value != "" && FindToken(old(db.tokens), PyStrip(creds.value)).None?
        ==> r == Err(401, "Token not found") && db.tokens == old(db.tokens)
    ensures creds.Some? && creds.value != "" && FindToken(old(db.tokens), PyStrip(creds.value)).Some?
        ==> var k := FindToken(old(db.tokens), PyStrip(creds.value)).value;
            if old(db.tokens)[k].expiresAt <= now then
              r == Err(401, "Token expired") && db.tokens == old(db.tokens) - {k}
            else if k !in db.users then r == Err(401, "User not found") && db.tokens == old(db.tokens)
            else r == Ok(LoggedOut("logged_out")) && db.tokens == old(db.tokens) - {k}
  {
    ghost var before := db.tokens;
    var caller := GetCurrentUser(db, creds, now);
    if caller.Err? {
      var status, detail := caller.status, caller.detail;
      return Err(status, detail);
    }
    ghost var held := FindToken(before, PyStrip(creds.value));
    assert db.tokens == before && held.Some? && before[held.value].expiresAt > now && held.value in db.users;
    var value := PyStrip(creds.value);
    var k := FindToken(db.tokens, value).value;
    assert k == held.value;
    RemovalKeepsTokensValid(before, db.users, {k});
    db.tokens := db.tokens - {k};
    r := Ok(LoggedOut("logged_out"));
  }

  /** While a user holds a token, resolving that token gives the user. */
  lemma HeldTokenResolves(tokens: map<int, Token>, k: int)
    requires TokenValuesUnique(tokens) && k in tokens
    ensures FindToken(tokens, tokens[k].token) == Some(k)
  {
    FindTokenIsTheHolder(tokens, tokens[k].token, k);
  }
}
