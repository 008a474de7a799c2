/** The user schema: a display `username` kept in the user's own casing, and
    `usernameLower`, its lowercase form, which two hooks keep in step with it
    and a unique index keeps distinct, so that two names differing only in
    case cannot both be registered. Passwords arrive already hashed. */
module UserModel {
  import opened Common
  import opened Text

  /** A stored user. The empty string stands for an unset field, which is what
      a `required` string validator refuses. */
  datatype User = User(username: string, usernameLower: string, password: string)

  /** The three `required: true` validators. */
  predicate RequiredPresent(u: User) {
    u.username != "" && u.usernameLower != "" && u.password != ""
  }

  /** The canonical key is the lowercase of the display name. */
  predicate InSync(u: User) {
    u.usernameLower == Lower(u.username)
  }

  /** The key the pre-save hook stores for a display name that went through
      the `trim` setter: lowercased, then trimmed by `usernameLower`'s own setter. */
  function CanonicalKey(username: string): (k: string)
    requires IsTrimmed(username)
    ensures k == Lower(username) && IsTrimmed(k)
  {
    LowerTrimCommute(username);
    TrimmedExactly(username);
    TrimmedExactly(Lower(username));
    Trim(Lower(username))
  }

  /** The unique indexes on `username` and on `usernameLower`. */
  predicate UniqueKeys(users: map<UserId, User>) {
    forall a, b :: a in users && b in users && a != b ==>
      users[a].username != users[b].username && users[a].usernameLower != users[b].usernameLower
  }

  /** No user other than `id` holds either of `u`'s keys, so the indexes accept writing `u` under `id`. */
  predicate KeysFree(users: map<UserId, User>, id: UserId, u: User) {
    forall k :: k in users && k != id ==> users[k].username != u.username && users[k].usernameLower != u.usernameLower
  }

  /** `insertOne` needs an `_id` not yet in use; a save of a loaded document needs it still present. */
  predicate Placeable(users: map<UserId, User>, id: UserId, isNew: bool) {
    if isNew then id !in users else id in users
  }

  /** What every stored user satisfies: the keys are unique, the display name
      is trimmed, and the canonical key is in step with it. */
  ghost predicate Registry(users: map<UserId, User>) {
    UniqueKeys(users) && forall id :: id in users ==> IsTrimmed(users[id].username) && InSync(users[id])
  }

  /** Writing a user whose keys are free, whose name is trimmed and whose key
      is in step keeps the registry so. */
  lemma RegistryAfterStore(users: map<UserId, User>, id: UserId, u: User)
    requires Registry(users) && KeysFree(users, id, u)
    requires IsTrimmed(u.username) && InSync(u)
    ensures Registry(users[id := u])
  {
    var users' := users[id := u];
    forall a, b | a in users' && b in users' && a != b
      ensures users'[a].username != users'[b].username && users'[a].usernameLower != users'[b].usernameLower
    {
    }
  }

  /** With keys in step and unique, two stored names never differ only in case. */
  lemma NoCaseVariants(users: map<UserId, User>, a: UserId, b: UserId)
    requires Registry(users)
    requires a in users && b in users && a != b
    ensures Lower(users[a].username) != Lower(users[b].username)
  {
    assert users[a].usernameLower != users[b].usernameLower;
  }

  /** A name whose lowercase matches a stored user's name is refused by the
      index on `usernameLower`, whatever its casing. */
  lemma CaseVariantRefused(users: map<UserId, User>, id: UserId, username: string, password: string, other: UserId)
    requires Registry(users)
    requires IsTrimmed(username) && other in users && other != id
    requires |username| == |users[other].username|
    requires forall i :: 0 <= i < |username| ==> LowerChar(username[i]) == LowerChar(users[other].username[i])
    ensures !KeysFree(users, id, User(username, CanonicalKey(username), password))
  {
    CaseVariantsShareLower(username, users[other].username);
  }

  /** The keys a `findOneAndUpdate` update object may carry; `None` is a key
      the update leaves out. */
  datatype UserUpdate = UserUpdate(username: Option<string>, usernameLower: Option<string>, password: Option<string>)

  /** The pre-`findOneAndUpdate` hook: when the update carries a truthy
      `username`, it also sets `usernameLower` to its lowercase. */
  function PreFindOneAndUpdate(u: UserUpdate): UserUpdate {
    if u.username.Some? && u.username.value != "" then u.(usernameLower := Some(Lower(u.username.value))) else u
  }

  /** The update applied to a stored user; the `trim` setters run on the
      update's string fields. The query runs no validators. */
  function ApplyUpdate(user: User, u: UserUpdate): User {
    User(if u.username.Some? then Trim(u.username.value) else user.username,
         if u.usernameLower.Some? then Trim(u.usernameLower.value) else user.usernameLower,
         u.password.GetOr(user.password))
  }

  /** An update that renames a user to a non-empty name keeps the stored
      key in step with the stored, trimmed name. */
  lemma RenameKeepsKeyInSync(user: User, u: UserUpdate)
    requires u.username.Some? && u.username.value != ""
    ensures InSync(ApplyUpdate(user, PreFindOneAndUpdate(u)))
    ensures IsTrimmed(ApplyUpdate(user, PreFindOneAndUpdate(u)).username)
  {
    LowerTrimCommute(u.username.value);
    TrimmedExactly(u.username.value);
  }

  /** An update carrying neither `username` nor `usernameLower` leaves both the
      name and its key as they were. */
  lemma UpdateWithoutNameKeepsKey(user: User, u: UserUpdate)
    requires u.username.None? && u.usernameLower.None?
    ensures ApplyUpdate(user, PreFindOneAndUpdate(u)).username == user.username
    ensures ApplyUpdate(user, PreFindOneAndUpdate(u)).usernameLower == user.usernameLower
  {
  }

  /** An update with an empty `username` is falsy to the hook, so it stores the
      empty name and leaves the old key behind: the two fall out of step. */
  lemma EmptyRenameDesyncs(user: User)
    requires InSync(user) && user.username != ""
    ensures ApplyUpdate(user, PreFindOneAndUpdate(UserUpdate(Some(""), None, None))) == user.(username := "")
    ensures !InSync(user.(username := ""))
  {
    assert TrimStart("") == "" && TrimEnd("") == "";
  }

  /** A user document in memory, as `new userModel({...})` builds it or a
      query loads it. `isNew` and `usernameModified` are Mongoose's own
      document state, read by the pre-save hook. */
  class UserDocument {
    var username: string
    var usernameLower: string
    var password: string
    var isNew: bool
    var usernameModified: bool

    /** The display name went through its `trim` setter, and a document that
        is neither new nor renamed still holds the key it was stored with. */
    ghost predicate Valid()
      reads this
    {
      IsTrimmed(username) && (isNew || usernameModified || usernameLower == Lower(username))
    }

    function Snapshot(): User
      reads this
    {
      User(username, usernameLower, password)
    }

    /** `new userModel({ username, password })`: the `trim` setter runs on
        assignment, and `usernameLower` is not set. */
    constructor (username: string, password: string)
      ensures Valid()
      ensures this.username == Trim(username) && usernameLower == "" && this.password == password
      ensures isNew && usernameModified
    {
      TrimmedExactly(username);
      this.username := Trim(username);
      usernameLower := "";
      this.password := password;
      isNew := true;
      usernameModified := true;
    }

    /** The pre-save hook: a new or renamed document gets the lowercase of its
        name as its key. Afterwards the key is in step with the name. */
    method PreSave()
      requires Valid()
      modifies this
      ensures Valid() && InSync(Snapshot())
      ensures username == old(username) && password == old(password)
      ensures isNew == old(isNew) && usernameModified == old(usernameModified)
      ensures !old(isNew || usernameModified) ==> usernameLower == old(usernameLower)
    {
      if usernameModified || isNew {
        usernameLower := CanonicalKey(username);
      }
    }
  }

  /** The `users` collection with its two unique indexes. */
  class UserCollection {
    var users: map<UserId, User>

    ghost predicate Valid()
      reads this
    {
      Registry(users)
    }

    constructor ()
      ensures Valid() && users == map[]
    {
      users := map[];
    }

    /** `doc.save()` in the order Mongoose runs it: validation is the first
        pre-save step, so the required `usernameLower` is checked before the
        hook that would fill it in. A document built by the constructor never
        gets past validation. */
    method SaveAsWritten(id: UserId, doc: UserDocument) returns (saved: bool)
      requires Valid() && doc.Valid()
      modifies this, doc
      ensures Valid() && doc.Valid()
      ensures !RequiredPresent(old(doc.Snapshot())) ==> !saved && users == old(users) && doc.Snapshot() == old(doc.Snapshot())
      ensures saved <==> RequiredPresent(old(doc.Snapshot())) && Placeable(old(users), id, old(doc.isNew))
                         && KeysFree(old(users), id, doc.Snapshot())
      ensures saved ==> users == old(users)[id := doc.Snapshot()] && !doc.isNew && !doc.usernameModified
      ensures !saved ==> users == old(users)
    {
      if !RequiredPresent(doc.Snapshot()) {
        return false;
      }
      doc.PreSave();
      saved := Store(id, doc);
    }

    /** `doc.save()` with the hook run before validation, as `pre('validate')`
        would run it: the key is filled in first, and then checked. */
    method Save(id: UserId, doc: UserDocument) returns (saved: bool)
      requires Valid() && doc.Valid()
      modifies this, doc
      ensures Valid() && doc.Valid() && InSync(doc.Snapshot())
      ensures doc.username == old(doc.username) && doc.password == old(doc.password)
      ensures saved <==> RequiredPresent(doc.Snapshot()) && Placeable(old(users), id, old(doc.isNew))
                         && KeysFree(old(users), id, doc.Snapshot())
      ensures saved ==> users == old(users)[id := doc.Snapshot()] && !doc.isNew && !doc.usernameModified
      ensures !saved ==> users == old(users)
    {
      doc.PreSave();
      if !RequiredPresent(doc.Snapshot()) {
        return false;
      }
      saved := Store(id, doc);
    }

    /** The write itself, after validation: the `_id` check and the two unique indexes. */
    method Store(id: UserId, doc: UserDocument) returns (saved: bool)
      requires Valid() && doc.Valid() && InSync(doc.Snapshot())
      modifies this, doc
      ensures Valid() && doc.Valid() && doc.Snapshot() == old(doc.Snapshot())
      ensures saved <==> Placeable(old(users), id, old(doc.isNew)) && KeysFree(old(users), id, doc.Snapshot())
      ensures saved ==> users == old(users)[id := doc.Snapshot()] && !doc.isNew && !doc.usernameModified
      ensures !saved ==> users == old(users) && doc.isNew == old(doc.isNew) && doc.usernameModified == old(doc.usernameModified)
    {
      if !Placeable(users, id, doc.isNew) || !KeysFree(users, id, doc.Snapshot()) {
        return false;
      }
      RegistryAfterStore(users, id, doc.Snapshot());
      users := users[id := doc.Snapshot()];
      doc.isNew, doc.usernameModified := false, false;
      saved := true;
    }

    /** Registering a user as the repository's sign-up does it: build the
        document, then save it. As written, the save always fails. */
    method RegisterAsWritten(id: UserId, username: string, hashedPassword: string) returns (saved: bool)
      requires Valid()
      modifies this
      ensures Valid() && !saved && users == old(users)
    {
      var doc := new UserDocument(username, hashedPassword);
      saved := SaveAsWritten(id, doc);
    }

    /** Registering with the hook run first: a trimmed, non-empty name and a
        password are stored, with the name's lowercase as the key, unless the
        id is taken or another user holds the name or the key. */
    method Register(id: UserId, username: string, hashedPassword: string) returns (saved: bool)
      requires Valid()
      modifies this
      ensures Valid()
      ensures saved <==> Trim(username) != "" && hashedPassword != "" && id !in old(users)
                         && KeysFree(old(users), id, User(Trim(username), Lower(Trim(username)), hashedPassword))
      ensures saved ==> users == old(users)[id := User(Trim(username), Lower(Trim(username)), hashedPassword)]
      ensures !saved ==> users == old(users)
    {
      var doc := new UserDocument(username, hashedPassword);
      saved := Save(id, doc);
    }
  }
}
