/** `login`: the credential checks, then a signed token that is recorded in the token store. */
module Login {
  import opened Wrappers
  import opened JsText
  import opened UserModel
  import opened TokenModel

  datatype LoginBody = LoginBody(email: Option<string>, password: Option<string>)

  /** What the response reveals about the user: never the password. */
  datatype PublicUser = PublicUser(id: ObjectId, name: string, email: string)

  datatype LoginReply =
    | MissingFields                                // 400
    | BadCredentials                               // 401, one message for both causes
    | LoggedIn(token: string, user: PublicUser)    // 200
    | ServerError                                  // 500
  {
    function Status(): int {
      match this
      case MissingFields => 400
      case BadCredentials => 401
      case LoggedIn(_, _) => 200
      case ServerError => 500
    }
  }

  /** The outcome of the checks made before a token is signed. */
  datatype CredentialCheck = Refused(reply: LoginReply) | Accepted(index: nat)

  /** Falsy fields first, then an unknown email or a password that `compare`
      (`bcrypt.compare`) rejects: both are the same 401. */
  function CheckCredentials(users: seq<User>, b: LoginBody, compare: (string, string) -> bool): (r: CredentialCheck)
    ensures r.Accepted? ==> r.index < |users|
    ensures r == Refused(MissingFields) <==> !(Truthy(b.email) && Truthy(b.password))
    ensures r.Refused? ==> r.reply == MissingFields || r.reply == BadCredentials
    ensures r.Accepted? <==>
      && Truthy(b.email) && Truthy(b.password)
      && FindByEmail(users, b.email.value).Some?
      && compare(b.password.value, users[FindByEmail(users, b.email.value).value].password)
    ensures r.Accepted? ==> users[r.index].email == b.email.value
  {
    if !(Truthy(b.email) && Truthy(b.password)) then Refused(MissingFields)
    else match FindByEmail(users, b.email.value)
      case None => Refused(BadCredentials)
      case Some(i) =>
        if compare(b.password.value, users[i].password) then Accepted(i) else Refused(BadCredentials)
  }

  /** `login`. `sign` is `jwt.sign(claims, secret, { expiresIn })`, given the
      claims and the `iat` and `exp` it stamps into the token; `signedAt` is the
      clock reading of `jwt.sign` and `now` the later one of `Token.create`. A
      token that fails the schema's validation makes `Token.create` throw. */
  method Login(users: UserStore, tokens: TokenStore, b: LoginBody,
               compare: (string, string) -> bool, sign: (Claims, int, int) -> string,
               signedAt: Millis, now: Millis)
    returns (r: LoginReply)
    modifies tokens
    ensures !r.LoggedIn? ==> tokens.records == old(tokens.records)
    ensures CheckCredentials(users.users, b, compare).Refused? ==>
      r == CheckCredentials(users.users, b, compare).reply
    ensures CheckCredentials(users.users, b, compare).Accepted? ==>
      var u := users.users[CheckCredentials(users.users, b, compare).index];
      var token := sign(Claims(u.id, u.email), IssuedAt(signedAt), ExpiresAt(signedAt));
      if token == "" then r == ServerError
      else
        && r == LoggedIn(token, PublicUser(u.id, u.name, u.email))
        && tokens.records == old(tokens.records) + [TokenRecord(u.id, token, now)]
  {
    var check := CheckCredentials(users.users, b, compare);
    if check.Refused? {
      return check.reply;
    }
    var user := users.users[check.index];
    var token := sign(Claims(user.id, user.email), IssuedAt(signedAt), ExpiresAt(signedAt));
    var record := CreateRecord(TokenDraft(Some(user.id), Some(token), None), now);
    if record.None? {
      return ServerError;
    }
    tokens.records := tokens.records + [record.value];
    r := LoggedIn(token, PublicUser(user.id, user.name, user.email));
  }
}
