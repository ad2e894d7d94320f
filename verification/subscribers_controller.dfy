/** `SubscribersController.Subscribe` (POST /api/subscribers) as a pure
    function from the subscriber store, the request body, the clock and the
    resolved client address to the new store, the HTTP status and the body. */
module SubscribersController {
  import opened Wrappers
  import Text
  import opened Subscribers
  import opened SubscribeResponses

  /** The request body. `source` and `website` are the nullable strings of the
      source; `website` is the honeypot a human never fills in. */
  datatype SubscribeRequest = SubscribeRequest(
    email: string,
    consentGiven: bool,
    source: Option<string>,
    website: Option<string>)

  /** What the action returns: the store after the request, the status code
      and the JSON body. */
  datatype Reply = Reply(store: Store, status: int, body: SubscribeResponse)

  const StatusOk: int := 200
  const StatusCreated: int := 201
  const StatusBadRequest: int := 400
  const StatusConflict: int := 409

  const ConsentRequiredMessage: string := "You must agree to receive emails to subscribe."
  const WelcomeBackMessage: string := "Welcome back! You've been re-subscribed."
  const DefaultSource: string := "landing-page"

  /** `!string.IsNullOrEmpty(request.Website)`: any value at all, white space
      included, marks the request as automated. */
  predicate HoneypotTriggered(request: SubscribeRequest) {
    !Text.IsNullOrEmpty(request.website)
  }

  /** The request gets past the honeypot and the consent check and reaches
      the store. */
  predicate ReachesStore(request: SubscribeRequest) {
    !HoneypotTriggered(request) && request.consentGiven
  }

  /** The record a successful request leaves under `key`: active, consenting,
      stamped with `now` and `ip`, and with the given source or the default. */
  predicate IsFreshlySubscribed(s: Subscriber, request: SubscribeRequest, now: Timestamp, ip: Option<string>) {
    && s.isActive
    && s.consent
    && s.subscribedAt == now
    && s.ipAddress == ip
    && s.source == Some(if request.source.Some? then request.source.value else DefaultSource)
  }

  function Subscribe(store: Store, request: SubscribeRequest, now: Timestamp, ip: Option<string>): (r: Reply)
    // which outcome, each stated both ways
    ensures r.status == StatusOk <==> HoneypotTriggered(request)
    ensures r.status == StatusBadRequest <==> !HoneypotTriggered(request) && !request.consentGiven
    ensures r.status == StatusConflict <==>
              ReachesStore(request) && IsActiveSubscriber(store, Text.NormalizeEmail(request.email))
    ensures r.status == StatusCreated <==>
              ReachesStore(request) && !IsActiveSubscriber(store, Text.NormalizeEmail(request.email))
    // the body of each outcome
    ensures r.status == StatusOk ==> r.body == SuccessResponse()
    ensures r.status == StatusBadRequest ==> r.body == ErrorResponse(ConsentRequiredMessage)
    ensures r.status == StatusConflict ==> r.body == AlreadySubscribedResponse()
    ensures r.status == StatusCreated ==>
              r.body == SuccessResponse(if Text.NormalizeEmail(request.email) in store
                                        then WelcomeBackMessage else DefaultSuccessMessage)
    // only a 201 writes, and it writes only the normalised email's record
    ensures r.status != StatusCreated ==> r.store == store
    ensures store.Keys <= r.store.Keys <= store.Keys + {Text.NormalizeEmail(request.email)}
    ensures forall k :: k in store && k != Text.NormalizeEmail(request.email) ==> r.store[k] == store[k]
    ensures r.status == StatusCreated ==>
              var key := Text.NormalizeEmail(request.email);
              && key in r.store
              && IsFreshlySubscribed(r.store[key], request, now, ip)
              && r.store[key].email == (if key in store then store[key].email else key)
  {
    if HoneypotTriggered(request) then
      // success, so that a bot cannot tell it was caught
      Reply(store, StatusOk, SuccessResponse())
    else if !request.consentGiven then
      Reply(store, StatusBadRequest, ErrorResponse(ConsentRequiredMessage))
    else
      var key := Text.NormalizeEmail(request.email);
      var source := Some(request.source.GetOr(DefaultSource));
      if key in store then
        var existing := store[key];
        if existing.isActive then
          Reply(store, StatusConflict, AlreadySubscribedResponse())
        else
          var reactivated := existing.(isActive := true, consent := request.consentGiven,
                                       subscribedAt := now, ipAddress := ip, source := source);
          Reply(store[key := reactivated], StatusCreated, SuccessResponse(WelcomeBackMessage))
      else
        var subscriber := Subscriber(key, request.consentGiven, source, now, ip, true);
        Reply(store[key := subscriber], StatusCreated, SuccessResponse())
  }

  /** Subscribing keeps the store well formed: every record stays under its
      own normalised email. */
  lemma SubscribePreservesWellFormed(store: Store, request: SubscribeRequest, now: Timestamp, ip: Option<string>)
    requires WellFormed(store)
    ensures WellFormed(Subscribe(store, request, now, ip).store)
  {
    var r := Subscribe(store, request, now, ip);
    var key := Text.NormalizeEmail(request.email);
    forall k | k in r.store ensures r.store[k].email == k && Text.IsNormalized(k) {
      if k != key {
        assert k in store;
      } else if r.status == StatusCreated {
        assert r.store[k].email == k;
      }
    }
  }

  /** The store changes exactly when the status is 201, and a 201 adds at
      most one record: one for a new email, none for a reactivation. */
  lemma StoreChangesIffCreated(store: Store, request: SubscribeRequest, now: Timestamp, ip: Option<string>)
    ensures var r := Subscribe(store, request, now, ip);
            && (r.store != store <==> r.status == StatusCreated)
            && |r.store| == |store| + (if r.status == StatusCreated && Text.NormalizeEmail(request.email) !in store then 1 else 0)
  {
    var r := Subscribe(store, request, now, ip);
    var key := Text.NormalizeEmail(request.email);
    if ReachesStore(request) && !IsActiveSubscriber(store, key) {
      var updated := r.store[key];
      if key in store {
        assert store[key] != updated by { assert !store[key].isActive && updated.isActive; }
        assert r.store == store[key := updated];
        assert r.store.Keys == store.Keys;
      } else {
        assert r.store == store[key := updated];
        assert key !in store.Keys && key in r.store.Keys;
      }
    }
  }

  /** Once a request has got a 201, repeating it — or sending any request for
      the same normalised email that reaches the store — gets 409 and changes
      nothing, whatever the clock and the address say. */
  lemma RepeatAfterCreatedConflicts(store: Store, request: SubscribeRequest, now: Timestamp, ip: Option<string>,
                                    again: SubscribeRequest, later: Timestamp, ip': Option<string>)
    requires Subscribe(store, request, now, ip).status == StatusCreated
    requires ReachesStore(again)
    requires Text.NormalizeEmail(again.email) == Text.NormalizeEmail(request.email)
    ensures var after := Subscribe(store, request, now, ip).store;
            Subscribe(after, again, later, ip') == Reply(after, StatusConflict, AlreadySubscribedResponse())
  {
  }

  /** The outcome depends on the email only through its normal form. */
  lemma OnlyNormalFormMatters(store: Store, request: SubscribeRequest, email: string, now: Timestamp, ip: Option<string>)
    requires Text.NormalizeEmail(email) == Text.NormalizeEmail(request.email)
    ensures Subscribe(store, request.(email := email), now, ip) == Subscribe(store, request, now, ip)
  {
  }

  /** Emails that differ only in ASCII case, or in white space around them,
      reach the same record and get the same reply. */
  lemma CaseAndWhiteSpaceInsensitive(store: Store, request: SubscribeRequest, email: string,
                                     p: string, q: string, now: Timestamp, ip: Option<string>)
    requires Text.ToLowerInvariant(email) == Text.ToLowerInvariant(request.email)
    requires Text.AllWhiteSpace(p) && Text.AllWhiteSpace(q)
    ensures Subscribe(store, request.(email := p + email + q), now, ip) == Subscribe(store, request, now, ip)
  {
    Text.NormalizeIgnoresSurroundingWhiteSpace(p, email, q);
    Text.NormalizeIgnoresCase(email, request.email);
  }

  /** A caught bot and a genuine new subscriber get the same body; only the
      status code differs (200 against 201). */
  lemma HoneypotBodyMatchesNewSubscriber(store: Store, bot: SubscribeRequest, botNow: Timestamp, botIp: Option<string>,
                                         store': Store, human: SubscribeRequest, now: Timestamp, ip: Option<string>)
    requires HoneypotTriggered(bot)
    requires ReachesStore(human) && Text.NormalizeEmail(human.email) !in store'
    ensures Subscribe(store, bot, botNow, botIp).body == Subscribe(store', human, now, ip).body
    ensures Subscribe(store, bot, botNow, botIp).status == StatusOk
    ensures Subscribe(store', human, now, ip).status == StatusCreated
  {
  }
}
