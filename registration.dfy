/** `register`: required fields, the email pattern, the duplicate check and
    the insertion of the new user with a hashed password. */
module Registration {
  import opened Wrappers
  import opened JsText
  import opened EmailFormat
  import opened UserModel

  datatype RegisterBody = RegisterBody(name: Option<string>, email: Option<string>, password: Option<string>)

  datatype RegisterReply = MissingFields | InvalidEmail | EmailTaken | Registered
  {
    function Status(): int {
      match this
      case MissingFields => 400
      case InvalidEmail => 400
      case EmailTaken => 409
      case Registered => 201
    }
    predicate Success() {
      Registered?
    }
  }

  predicate FieldsPresent(b: RegisterBody) {
    Truthy(b.name) && Truthy(b.email) && Truthy(b.password)
  }

  /** The checks made before the store is consulted, in their order: a falsy
      field first, then the email pattern. `None` means both passed. */
  function Precheck(b: RegisterBody): (r: Option<RegisterReply>)
    ensures r.None? || r == Some(MissingFields) || r == Some(InvalidEmail)
    ensures r.None? ==> FieldsPresent(b) && MatchesEmailPattern(b.email.value)
  {
    if !FieldsPresent(b) then Some(MissingFields)
    else if !MatchesEmailPattern(b.email.value) then Some(InvalidEmail)
    else None
  }

  /** The email check rejects exactly the addresses that do not have the
      shape of EmailFormat.EmailShape, and only once every field is present. */
  lemma PrecheckOutcomes(b: RegisterBody)
    ensures Precheck(b) == Some(MissingFields) <==> !FieldsPresent(b)
    ensures Precheck(b) == Some(InvalidEmail) <==> FieldsPresent(b) && !EmailShape(b.email.value)
    ensures Precheck(b).None? <==> FieldsPresent(b) && EmailShape(b.email.value)
  {
    if FieldsPresent(b) {
      PatternIffShape(b.email.value);
    }
  }

  /** The new user document: the given name and email, the hash of the
      password (never the password itself), and no favorites yet. */
  function NewUser(id: ObjectId, b: RegisterBody, hash: string -> string): (u: User)
    requires FieldsPresent(b)
    ensures u.id == id && u.name == b.name.value && u.email == b.email.value
    ensures u.password == hash(b.password.value) && u.favorites == []
  {
    User(id, b.name.value, b.email.value, hash(b.password.value), [])
  }

  /** `register` against the user store; `hash` is `bcrypt.hash(password, 10)`. */
  method Register(store: UserStore, b: RegisterBody, hash: string -> string) returns (r: RegisterReply)
    requires store.Valid()
    modifies store
    ensures store.Valid()
    ensures r != Registered ==> store.users == old(store.users) && store.nextId == old(store.nextId)
    ensures Precheck(b).Some? ==> r == Precheck(b).value
    ensures Precheck(b).None? && FindByEmail(old(store.users), b.email.value).Some? ==> r == EmailTaken
    ensures Precheck(b).None? && FindByEmail(old(store.users), b.email.value).None? ==>
      && r == Registered
      && store.users == old(store.users) + [NewUser(old(store.nextId), b, hash)]
      && store.nextId == old(store.nextId) + 1
  {
    var early := Precheck(b);
    if early.Some? {
      return early.value;
    }
    var existing := FindByEmail(store.users, b.email.value);
    if existing.Some? {
      return EmailTaken;
    }
    var user := NewUser(store.nextId, b, hash);
    store.users := store.users + [user];
    store.nextId := store.nextId + 1;
    r := Registered;
  }
}
