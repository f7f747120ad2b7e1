/** The identity provider's webhook: user events keep the user table in step. */
module Webhook {
  import opened Wrappers
  import opened Text
  import opened Tables
  import opened Entities
  import opened Store
  import opened Auth

  /** The members of a Clerk event body the handler reads: `type`, `data.id`,
      the `email_address` of each `data.email_addresses` entry, and
      `data.first_name` / `data.last_name`, each a string or `null` (`None`). */
  datatype ClerkEvent = ClerkEvent(
    kind: string,
    id: string,
    emails: seq<string>,
    firstName: Option<string>,
    lastName: Option<string>)

  /** The handler's reply, `{ success: true }`. */
  datatype Reply = Reply(success: bool)

  /** The run-time error of reading `email_address` of a missing first entry. */
  const NoEmail := "Cannot read properties of undefined (reading 'email_address')"

  /** `first && last ? `${first} ${last}` : first || last`. */
  function DisplayName(first: Option<string>, last: Option<string>): (name: Option<string>)
    ensures Truthy(first) && Truthy(last) ==> name == Some(first.value + " " + last.value)
    ensures Truthy(first) && !Truthy(last) ==> name == first
    ensures !Truthy(first) ==> name == last
  {
    if Truthy(first) && Truthy(last) then Some(first.value + " " + last.value)
    else if Truthy(first) then first else last
  }

  /** The name is non-empty exactly when one of the parts is, and it then
      starts with the first non-empty part. */
  lemma DisplayNameParts(first: Option<string>, last: Option<string>)
    ensures Truthy(DisplayName(first, last)) <==> Truthy(first) || Truthy(last)
    ensures Truthy(first) ==> StartsWith(DisplayName(first, last).value, first.value)
    ensures !Truthy(first) && Truthy(last) ==> DisplayName(first, last) == last
  {
    if Truthy(first) && Truthy(last) {
      assert (first.value + " " + last.value)[..|first.value|] == first.value;
    }
  }

  predicate IsUpsertEvent(kind: string) {
    kind == "user.created" || kind == "user.updated"
  }

  /** `handleClerkWebhook`. `storeFails` is passed to the upsert. The delete
      event passes the Clerk id where the store expects its own id, so it
      removes a user only when some store id equals the Clerk id. */
  method HandleClerkWebhook(db: Database, event: ClerkEvent, now: Time, storeFails: bool)
    returns (r: Result<Reply>)
    requires db.Valid()
    modifies db
    ensures db.Valid() && OnlyUsersChanged(db)
    ensures r.Ok? ==> r.value.success
    ensures IsUpsertEvent(event.kind) && event.emails == [] ==>
      r == Err(NoEmail) && db.users == old(db.users)
    ensures IsUpsertEvent(event.kind) && event.emails != [] ==>
      && (r.Err? <==> storeFails)
      && (r.Err? ==> r.message == UpsertFailed && db.users == old(db.users))
      && (r.Ok? ==> exists u :: Upserted(old(db.users), db.users, u, event.id, event.emails[0],
                                        DisplayName(event.firstName, event.lastName), now))
    ensures event.kind == "user.deleted" ==>
      && (r.Err? <==> event.id !in Keys(old(db.users), UserKey))
      && (r.Err? ==> db.users == old(db.users))
      && (r.Ok? ==> db.users == RemoveKey(old(db.users), UserKey, event.id))
    ensures !IsUpsertEvent(event.kind) && event.kind != "user.deleted" ==>
      r == Ok(Reply(true)) && db.users == old(db.users)
  {
    if IsUpsertEvent(event.kind) {
      if event.emails == [] {
        return Err(NoEmail);
      }
      var upserted := CreateOrUpdateUser(db, event.id, event.emails[0],
                                         DisplayName(event.firstName, event.lastName), now, storeFails);
      if upserted.Err? {
        return Err(upserted.message);
      }
    } else if event.kind == "user.deleted" {
      var deleted := DeleteUser(db, event.id);
      if deleted.Err? {
        return Err(deleted.message);
      }
    }
    r := Ok(Reply(true));
  }
}
