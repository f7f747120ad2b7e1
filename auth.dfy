/** User accounts, kept in step with the identity provider (Clerk). A user is
    found by email when the provider reports a change, and by `providerId`
    (the provider's id) or the store's own `id` otherwise. */
module Auth {
  import opened Wrappers
  import opened Tables
  import opened Entities
  import opened Store

  const UpsertFailed := "Failed to create or update user"
  /** The store's error for a `delete` whose row does not exist. */
  const RecordToDeleteNotFound := "Record to delete does not exist."

  function HasEmail(email: string): User -> bool {
    (u: User) => u.email == email
  }

  /** With unique emails, at most one user has a given email. */
  lemma {:induction false} AtMostOnePerEmail(users: seq<User>, email: string)
    requires UniqueKeys(users, UserEmail)
    ensures Count(users, HasEmail(email)) <= 1
    ensures Count(users, HasEmail(email)) == if email in Keys(users, UserEmail) then 1 else 0
  {
    if users != [] {
      var rest := users[1..];
      AtMostOnePerEmail(rest, email);
      assert Keys(users, UserEmail) == [users[0].email] + Keys(rest, UserEmail);
      if users[0].email == email {
        forall u | u in rest ensures u.email != email {
          var j :| 0 <= j < |rest| && rest[j] == u;
          assert Keys(rest, UserEmail)[j] == u.email;
        }
        assert Filter(rest, HasEmail(email)) == [];
      } else {
        assert Filter(users, HasEmail(email)) == [] + Filter(rest, HasEmail(email));
      }
    }
  }

  /** The row `upsert` writes over an existing user: the email (unchanged)
      and the supplied name, where `None` is `null` and clears the column. */
  function Refreshed(u: User, name: Option<string>, now: Time): (r: User)
    ensures r.id == u.id && r.email == u.email && r.providerId == u.providerId
    ensures r.provider == u.provider && r.subscription == u.subscription && r.createdAt == u.createdAt
    ensures r.name == name && r.updatedAt == now
  {
    u.(name := name, updatedAt := now)
  }

  /** The effect of the upsert on the user table, returning `u`: the user
      with that email is refreshed in place, or a new `clerk` user on the
      `free` plan is appended. */
  ghost predicate Upserted(before: seq<User>, after: seq<User>, u: User, clerkUserId: string, email: string,
                           name: Option<string>, now: Time)
  {
    && u.email == email
    && if email in Keys(before, UserEmail) then
         var i := IndexOfKey(before, UserEmail, email).value;
         u == Refreshed(before[i], name, now) && after == before[i := u]
       else
         && u.provider == "clerk" && u.providerId == clerkUserId && u.subscription == "free"
         && u.name == name && u.createdAt == now && u.updatedAt == now
         && u.id !in Keys(before, UserKey)
         && after == before + [u]
  }

  /** After an upsert exactly one user has the email, and a user is added
      only when none had it before. */
  lemma UpsertedOnePerEmail(before: seq<User>, after: seq<User>, u: User, clerkUserId: string, email: string,
                            name: Option<string>, now: Time)
    requires UniqueKeys(after, UserEmail)
    requires Upserted(before, after, u, clerkUserId, email, name, now)
    ensures Count(after, HasEmail(email)) == 1
    ensures |after| == |before| + (if email in Keys(before, UserEmail) then 0 else 1)
  {
    if email in Keys(before, UserEmail) {
      var i := IndexOfKey(before, UserEmail, email).value;
      assert Keys(after, UserEmail)[i] == email;
    } else {
      assert Keys(after, UserEmail)[|before|] == email;
    }
    AtMostOnePerEmail(after, email);
  }

  /** `createOrUpdateUser`: an upsert keyed by email. `storeFails` stands for
      the store raising an error (the connection, a constraint), which is
      reported as `'Failed to create or update user'`. A `None` name is
      `null`: it clears the name of an existing user. */
  method CreateOrUpdateUser(db: Database, clerkUserId: string, email: string, name: Option<string>,
                            now: Time, storeFails: bool)
    returns (r: Result<User>)
    requires db.Valid()
    modifies db
    ensures db.Valid() && OnlyUsersChanged(db)
    ensures storeFails <==> r.Err?
    ensures r.Err? ==> r.message == UpsertFailed && db.users == old(db.users)
    ensures r.Ok? ==> r.value in db.users && Upserted(old(db.users), db.users, r.value, clerkUserId, email, name, now)
  {
    if storeFails {
      return Err(UpsertFailed);
    }
    match IndexOfKey(db.users, UserEmail, email)
    case Some(i) =>
      var u := Refreshed(db.users[i], name, now);
      assert UserKey(u) == UserKey(db.users[i]);
      UniqueKeysUpdate(db.users, UserKey, i, u);
      UniqueKeysUpdate(db.users, UserEmail, i, u);
      db.users := db.users[i := u];
      assert db.users[i] == u;
      r := Ok(u);
    case None =>
      var id := NewKey(Keys(db.users, UserKey));
      var u := User(id, email, name, "clerk", clerkUserId, "free", now, now);
      UniqueKeysAppend(db.users, u, UserKey);
      UniqueKeysAppend(db.users, u, UserEmail);
      db.users := db.users + [u];
      assert db.users[|db.users| - 1] == u;
      r := Ok(u);
  }

  /** `getUserByClerkId`: the first user whose `providerId` is the Clerk id. */
  function UserByClerkId(users: seq<User>, clerkUserId: string): (r: Option<User>)
    ensures r.None? <==> forall u :: u in users ==> u.providerId != clerkUserId
    ensures r.Some? ==> exists i :: 0 <= i < |users| && users[i] == r.value && r.value.providerId == clerkUserId
                          && forall j :: 0 <= j < i ==> users[j].providerId != clerkUserId
  {
    if users == [] then None
    else if users[0].providerId == clerkUserId then Some(users[0])
    else
      var rest := UserByClerkId(users[1..], clerkUserId);
      assert forall u :: u in users[1..] ==> u in users;
      assert forall u :: u in users && u != users[0] ==> u in users[1..];
      if rest.Some? then
        var i :| 0 <= i < |users[1..]| && users[1..][i] == rest.value && rest.value.providerId == clerkUserId
                 && forall j :: 0 <= j < i ==> users[1..][j].providerId != clerkUserId;
        assert users[i + 1] == rest.value;
        rest
      else rest
  }

  /** `deleteUser`: removes the user whose store id is `userId`; the store
      raises an error when there is none. */
  method DeleteUser(db: Database, userId: string) returns (r: Result<User>)
    requires db.Valid()
    modifies db
    ensures db.Valid() && OnlyUsersChanged(db)
    ensures r.Err? <==> userId !in Keys(old(db.users), UserKey)
    ensures r.Err? ==> r.message == RecordToDeleteNotFound && db.users == old(db.users)
    ensures r.Ok? ==> r.value in old(db.users) && r.value.id == userId
    ensures r.Ok? ==> db.users == RemoveKey(old(db.users), UserKey, userId)
    ensures forall u :: u in db.users <==> u in old(db.users) && u.id != userId
  {
    match FindKey(db.users, UserKey, userId)
    case None =>
      r := Err(RecordToDeleteNotFound);
    case Some(u) =>
      RemoveKeyUnique(db.users, UserKey, userId);
      RemoveKeyEmails(db.users, userId);
      db.users := RemoveKey(db.users, UserKey, userId);
      r := Ok(u);
  }

  function NotId(userId: string): User -> bool {
    (u: User) => u.id != userId
  }

  /** Removing a row keeps the emails unique. */
  lemma {:induction false} RemoveKeyEmails(users: seq<User>, userId: string)
    requires UniqueKeys(users, UserEmail)
    ensures UniqueKeys(RemoveKey(users, UserKey, userId), UserEmail)
  {
    RemoveKeySameFilter(users, userId);
    FilterUnique(users, UserEmail, NotId(userId));
  }

  lemma {:induction false} RemoveKeySameFilter(users: seq<User>, userId: string)
    ensures RemoveKey(users, UserKey, userId) == Filter(users, NotId(userId))
  {
    if users != [] {
      RemoveKeySameFilter(users[1..], userId);
    }
  }
}
