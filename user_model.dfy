/** The user collection as the controllers use it. The User schema itself is
    not part of this model; the fields below are the ones the controllers read
    and write. */
module UserModel {
  import opened Wrappers

  datatype User = User(
    id: ObjectId,
    name: string,
    email: string,
    password: string,       // what was stored: the bcrypt hash
    favorites: seq<ObjectId>)

  /** A query over the collection: the index of the first user, in insertion
      order, that matches, or nothing when none does. */
  function FindFirst(users: seq<User>, matches: User -> bool): (r: Option<nat>)
    ensures r.Some? ==> (r.value < |users| && matches(users[r.value])
      && forall k :: 0 <= k < r.value ==> !matches(users[k]))
    ensures r.None? <==> forall k :: 0 <= k < |users| ==> !matches(users[k])
  {
    if users == [] then None
    else if matches(users[0]) then Some(0)
    else match FindFirst(users[1..], matches)
      case None => None
      case Some(i) => Some(i + 1)
  }

  /** `User.findOne({ email })`. */
  function FindByEmail(users: seq<User>, email: string): (r: Option<nat>)
    ensures r.Some? ==> r.value < |users| && users[r.value].email == email
    ensures r.Some? ==> forall k :: 0 <= k < r.value ==> users[k].email != email
    ensures r.None? <==> forall k :: 0 <= k < |users| ==> users[k].email != email
  {
    FindFirst(users, (u: User) => u.email == email)
  }

  /** `User.findById(id)`. */
  function FindById(users: seq<User>, id: ObjectId): (r: Option<nat>)
    ensures r.Some? ==> r.value < |users| && users[r.value].id == id
    ensures r.None? <==> forall k :: 0 <= k < |users| ==> users[k].id != id
  {
    FindFirst(users, (u: User) => u.id == id)
  }

  /** The user collection, in insertion order, and the source of fresh ids. */
  class UserStore {
    var users: seq<User>
    var nextId: ObjectId

    /** Ids increase with insertion and are below `nextId`; no two users share an email. */
    ghost predicate Valid()
      reads this
    {
      && (forall i :: 0 <= i < |users| ==> users[i].id < nextId)
      && (forall i, j :: 0 <= i < j < |users| ==> users[i].id < users[j].id)
      && (forall i, j :: 0 <= i < j < |users| ==> users[i].email != users[j].email)
    }

    constructor ()
      ensures Valid() && users == [] && nextId == 0
    {
      users := [];
      nextId := 0;
    }
  }
}
