/**
  The user container of the document store, reduced to what the handlers use: a point read
  by id and partition key (both the email), an upsert and a create.
*/
module Cosmos {
  import opened Users

  /** What a point read gives: the document, a NotFound status, or any other store failure. */
  datatype ReadResult = Found(user: User) | NotFound | StoreError

  /**
    The container is partitioned on `/email` and every document the handlers address has
    `id == email`; a point read with id and partition key `k` can only return such a document.
  */
  ghost predicate Keyed(items: map<string, User>)
  {
    forall k :: k in items ==> items[k].id == k && items[k].email == k
  }

  /** `ReadItemAsync(email, new PartitionKey(email))` against the documents `items`. */
  function Read(items: map<string, User>, reachable: bool, email: string): ReadResult
  {
    if !reachable then StoreError
    else if email in items then Found(items[email])
    else NotFound
  }

  class Container {
    /** The documents, by the email that is both their id and their partition key. */
    var items: map<string, User>
    /** False when the store cannot be reached: every read then fails. */
    var reachable: bool

    ghost predicate Valid()
      reads this
    {
      Keyed(items)
    }

    constructor (items: map<string, User>, reachable: bool)
      requires Keyed(items)
      ensures Valid()
      ensures this.items == items && this.reachable == reachable
    {
      this.items := items;
      this.reachable := reachable;
    }

    function ReadItem(email: string): ReadResult
      reads this
    {
      Read(items, reachable, email)
    }

    /** `UpsertItemAsync(user, new PartitionKey(user.Email))`: insert or replace. */
    method UpsertItem(user: User)
      requires Valid() && reachable
      requires user.id == user.email
      modifies this
      ensures Valid() && reachable
      ensures items == old(items)[user.email := user]
    {
      items := items[user.email := user];
    }

    /** `CreateItemAsync(user, new PartitionKey(user.Email))`: insert a document that is not there yet. */
    method CreateItem(user: User)
      requires Valid() && reachable
      requires user.id == user.email && user.email !in items
      modifies this
      ensures Valid() && reachable
      ensures items == old(items)[user.email := user]
    {
      items := items[user.email := user];
    }
  }
}
