/** The persisted subscriber record (TCGHit.Api/Models/Subscriber.cs) and the
    table that holds it (TCGHit.Api/Data/AppDbContext.cs). */
module Subscribers {
  import opened Wrappers
  import Text

  /** A point in time, as `DateTime` UTC ticks. */
  type Timestamp = int

  /** One subscriber. The entity class calls the consent flag `HasConsent`
      while the controller assigns `ConsentGiven`; both are this one `consent`
      field. The surrogate `Id` is not modelled: the store's key identifies a
      record. */
  datatype Subscriber = Subscriber(
    email: string,
    consent: bool,
    source: Option<string>,
    subscribedAt: Timestamp,
    ipAddress: Option<string>,
    isActive: bool)

  /** The subscriber table, indexed by email. A map holds at most one record
      per key, which stands in for the table's unique index on `Email`. The
      source finds a record by its `Email` field, while `Subscribe` finds it by
      its key. The two lookups agree exactly when every record sits under its
      own email, `store[k].email == k`; `WellFormed` states this, and
      `Subscribe` preserves it without requiring it. */
  type Store = map<string, Subscriber>

  /** Every record sits under its own email, and that email is in normal form. */
  predicate WellFormed(store: Store) {
    forall k :: k in store ==> store[k].email == k && Text.IsNormalized(k)
  }

  /** The unique index: in a well-formed store no two records share an email,
      and the record for an email is found under that email. */
  lemma EmailIsUnique(store: Store, k1: string, k2: string)
    requires WellFormed(store)
    requires k1 in store && k2 in store
    ensures store[k1].email == store[k2].email <==> k1 == k2
  {
  }

  predicate IsActiveSubscriber(store: Store, email: string) {
    email in store && store[email].isActive
  }
}
