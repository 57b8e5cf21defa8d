/**
 * The User collection (server/models/User.js): the record shape, the schema's validation and
 * defaults, and the unique sparse indexes on email and phone.
 */
module UserModel {
  import opened Outcomes

  /** A Mongo ObjectId, treated as an opaque value with equality. */
  type ObjectId = nat

  /** A stored user document. `name`, `email` and `phone` are optional strings. */
  datatype User = User(
    id: ObjectId,
    name: Option<string>,
    email: Option<string>,
    phone: Option<string>,
    password: Option<string>,
    verified: bool)

  /** Present and not the empty string: JavaScript truthiness of a string-or-undefined field,
      and also what Mongoose's `required` validator accepts for a String path. */
  predicate NonEmpty(s: Option<string>) {
    s.Some? && s.value != ""
  }

  /** Builds a document as `new User({...})` does: `verified` takes its default when not supplied. */
  function NewUser(id: ObjectId, name: Option<string>, email: Option<string>, phone: Option<string>,
                   password: Option<string>, verified: Option<bool>): (u: User)
    ensures u.id == id && u.name == name && u.email == email && u.phone == phone && u.password == password
    ensures verified.None? ==> !u.verified
    ensures verified.Some? ==> u.verified == verified.value
  {
    User(id, name, email, phone, password, verified.GetOr(false))
  }

  /** Schema validation run by `save` and `create`: the password is required. */
  predicate PassesValidation(u: User) {
    NonEmpty(u.password)
  }

  /** The document `new User({ _id })` that sendOTP builds for an unknown handle: unverified by
      default, bound to no handle, and refused by validation because it has no password. */
  function TempUser(id: ObjectId): (u: User)
    ensures u.id == id && !u.verified && u.email.None? && u.phone.None?
    ensures !PassesValidation(u)
  {
    NewUser(id, None, None, None, None, None)
  }

  /** The lookup of sendOTP: the user's email equals the submitted email, or its phone equals the
      submitted phone (a handle that was not submitted matches nothing). */
  predicate MatchesHandle(u: User, email: Option<string>, phone: Option<string>) {
    (email.Some? && u.email == email) || (phone.Some? && u.phone == phone)
  }

  /** The unique sparse index on email: no two users share a present email. */
  predicate UniqueEmails(users: map<ObjectId, User>) {
    forall a, b :: a in users && b in users && a != b && users[a].email.Some? ==> users[a].email != users[b].email
  }

  /** The unique sparse index on phone: no two users share a present phone. */
  predicate UniquePhones(users: map<ObjectId, User>) {
    forall a, b :: a in users && b in users && a != b && users[a].phone.Some? ==> users[a].phone != users[b].phone
  }

  /** What the collection guarantees of every stored document: it is stored under its own id, it
      passed validation when saved, and the handle indexes are unique. */
  predicate StoreValid(users: map<ObjectId, User>) {
    (forall id :: id in users ==> users[id].id == id && PassesValidation(users[id]))
    && UniqueEmails(users) && UniquePhones(users)
  }

  /** Inserting `u` would violate a unique index: its `_id`, or a present email or phone, is taken. */
  predicate DuplicateKey(users: map<ObjectId, User>, u: User) {
    u.id in users
    || (u.email.Some? && exists id :: id in users && users[id].email == u.email)
    || (u.phone.Some? && exists id :: id in users && users[id].phone == u.phone)
  }

  /** `User.create`: validation first, then the unique indexes; the store is unchanged on failure. */
  datatype WriteFault = ValidationError | DuplicateKeyError

  function Insert(users: map<ObjectId, User>, u: User): (r: Result<map<ObjectId, User>, WriteFault>)
    ensures r.Ok? <==> PassesValidation(u) && !DuplicateKey(users, u)
    ensures r == Err(ValidationError) <==> !PassesValidation(u)
    ensures r.Ok? ==> u.id !in users && r.value == users[u.id := u]
    ensures r.Ok? && StoreValid(users) ==> StoreValid(r.value)
  {
    if !PassesValidation(u) then Err(ValidationError)
    else if DuplicateKey(users, u) then Err(DuplicateKeyError)
    else Ok(users[u.id := u])
  }

  /** Setting `verified` on a stored user and saving keeps every store guarantee: no handle changes
      and the document still has its password. */
  lemma MarkVerifiedKeepsStoreValid(users: map<ObjectId, User>, id: ObjectId)
    requires StoreValid(users) && id in users
    ensures StoreValid(users[id := users[id].(verified := true)])
  {
  }
}
