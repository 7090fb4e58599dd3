/**
 * The create route `POST /api/secrets` (src/app/api/secrets/route.ts): it
 * rejects a falsy secret, fills in defaults for the expiry and the view
 * budget with `||`, inserts a fresh record with no views, sweeps its own
 * store and returns the new id.
 */
module Route {
  import opened Wrappers
  import opened Store

  /** The JSON body as the route reads it; an absent field is `None`. */
  datatype CreateRequest = CreateRequest(secret: Option<string>, expiryDays: Option<int>, maxViews: Option<int>)

  /** Status 400 with an error message, or the JSON `{ id }` of a success. */
  datatype CreateResponse = BadRequest(error: string) | Created(id: Id)

  const DEFAULT_EXPIRY_DAYS: int := 7
  const DEFAULT_MAX_VIEWS: int := 1
  const SECRET_REQUIRED: string := "Secret is required"

  /** JavaScript truthiness of the `secret` field: absent and `""` are falsy. */
  predicate Truthy(v: Option<string>): (truthy: bool)
    ensures !truthy <==> v == None || v == Some("")
  {
    v.Some? && v.value != ""
  }

  /**
   * `v || fallback` on a numeric field: absent and `0` are falsy. A given
   * non-zero value is kept as it is, with no range check, and the result is
   * never zero when the fallback is not.
   */
  function OrDefault(v: Option<int>, fallback: int): (r: int)
    ensures v.Some? && v.value != 0 ==> r == v.value
    ensures v.None? || v.value == 0 ==> r == fallback
    ensures fallback != 0 ==> r != 0
  {
    if v.None? || v.value == 0 then fallback else v.value
  }

  /**
   * The record the route inserts for a truthy secret: the secret as sent,
   * no views yet, a view budget that is never zero and an expiry a whole
   * non-zero number of days away from `now`.
   */
  function NewRecord(secret: string, req: CreateRequest, now: int): (r: Record)
    ensures r.secret == secret && r.views == 0
    ensures r.maxViews != 0
    ensures r.expiryDate != now && (r.expiryDate - now) % DAY_MS == 0
  {
    Record(secret, now + OrDefault(req.expiryDays, DEFAULT_EXPIRY_DAYS) * DAY_MS,
           OrDefault(req.maxViews, DEFAULT_MAX_VIEWS), 0)
  }

  /** The response of a create and the store it leaves behind. */
  datatype Outcome = Outcome(response: CreateResponse, secrets: map<Id, Record>)

  /**
   * The whole create operation as a function of the old store, the request,
   * the id drawn for it and the current time. A falsy secret gets a 400 and
   * leaves the store as it was (the sweep does not run); otherwise the new
   * record is inserted under `id`, the store is swept and `id` is returned.
   */
  function PostOutcome(m: map<Id, Record>, req: CreateRequest, id: Id, now: int): (o: Outcome)
    ensures !Truthy(req.secret) ==> o == Outcome(BadRequest(SECRET_REQUIRED), m)
    ensures Truthy(req.secret) ==> o.response == Created(id)
    ensures Truthy(req.secret) ==>
      forall k :: k in o.secrets ==> o.secrets[k].expiryDate >= now && o.secrets[k].views < o.secrets[k].maxViews
    ensures o.secrets.Keys <= m.Keys + {id}
    ensures forall k :: k in o.secrets && k != id ==> o.secrets[k] == m[k]
  {
    if !Truthy(req.secret) then
      Outcome(BadRequest(SECRET_REQUIRED), m)
    else
      Outcome(Created(id), Swept(m[id := NewRecord(req.secret.value, req, now)], now))
  }

  /**
   * `POST`: the route's own store is updated in place. `id` stands for the
   * UUID drawn by `randomUUID`; nothing checks that it is unused, so a
   * collision would overwrite (see PostOverwrites).
   */
  method Post(store: SecretStore, req: CreateRequest, id: Id, now: int) returns (response: CreateResponse)
    modifies store
    ensures Outcome(response, store.secrets) == PostOutcome(old(store.secrets), req, id, now)
  {
    if !Truthy(req.secret) {
      return BadRequest(SECRET_REQUIRED);
    }
    store.secrets := store.secrets[id := NewRecord(req.secret.value, req, now)];
    ghost var examined := store.Cleanup(now);
    response := Created(id);
  }

  /** A created record holds the secret verbatim, no views, and the defaulted fields. */
  lemma PostRecordFields(secret: string, req: CreateRequest, now: int)
    requires req.secret == Some(secret)
    ensures NewRecord(secret, req, now).secret == secret
    ensures NewRecord(secret, req, now).views == 0
    ensures req.expiryDays.None? || req.expiryDays.value == 0 ==> NewRecord(secret, req, now).expiryDate == now + 7 * DAY_MS
    ensures req.maxViews.None? || req.maxViews.value == 0 ==> NewRecord(secret, req, now).maxViews == 1
    ensures req.expiryDays.Some? && req.expiryDays.value != 0 ==> NewRecord(secret, req, now).expiryDate == now + req.expiryDays.value * DAY_MS
    ensures req.maxViews.Some? && req.maxViews.value != 0 ==> NewRecord(secret, req, now).maxViews == req.maxViews.value
  {
  }

  /**
   * With at least one day and at least one view after defaulting, the
   * returned id is in the store when the route returns, holding the record
   * as built; there is no range check, so e.g. 500 views are stored as 500.
   */
  lemma PostKeepsNewRecord(m: map<Id, Record>, req: CreateRequest, id: Id, now: int)
    requires Truthy(req.secret)
    requires OrDefault(req.expiryDays, DEFAULT_EXPIRY_DAYS) >= 1
    requires OrDefault(req.maxViews, DEFAULT_MAX_VIEWS) >= 1
    ensures PostOutcome(m, req, id, now).response == Created(id)
    ensures id in PostOutcome(m, req, id, now).secrets
    ensures PostOutcome(m, req, id, now).secrets[id] == NewRecord(req.secret.value, req, now)
  {
    var rec := NewRecord(req.secret.value, req, now);
    assert rec.expiryDate >= now + DAY_MS;
  }

  /**
   * A negative view budget, or an expiry that lands before `now`, makes the
   * same call's sweep delete the new record, yet its id is still returned.
   */
  lemma PostSelfDeleting(m: map<Id, Record>, req: CreateRequest, id: Id, now: int)
    requires Truthy(req.secret)
    requires OrDefault(req.maxViews, DEFAULT_MAX_VIEWS) <= 0 || OrDefault(req.expiryDays, DEFAULT_EXPIRY_DAYS) < 0
    ensures PostOutcome(m, req, id, now).response == Created(id)
    ensures id !in PostOutcome(m, req, id, now).secrets
  {
    var rec := NewRecord(req.secret.value, req, now);
    if OrDefault(req.expiryDays, DEFAULT_EXPIRY_DAYS) < 0 {
      assert rec.expiryDate <= now - DAY_MS;
    }
  }

  /**
   * After a successful create the whole store passes the sweep's keep test,
   * and, for a fresh id, every record that was live before is still there
   * unchanged while every other old record is gone.
   */
  lemma PostPreservesLive(m: map<Id, Record>, req: CreateRequest, id: Id, now: int, k: Id)
    requires Truthy(req.secret) && id !in m && k in m
    ensures k in PostOutcome(m, req, id, now).secrets <==> !Doomed(m[k], now)
    ensures k in PostOutcome(m, req, id, now).secrets ==> PostOutcome(m, req, id, now).secrets[k] == m[k]
  {
  }

  /** An id that is already taken is overwritten silently: the old record is lost. */
  lemma PostOverwrites(m: map<Id, Record>, req: CreateRequest, id: Id, now: int)
    requires Truthy(req.secret) && id in m
    requires m[id] != NewRecord(req.secret.value, req, now)
    ensures id !in PostOutcome(m, req, id, now).secrets || PostOutcome(m, req, id, now).secrets[id] != m[id]
  {
  }

  /**
   * The route's store is separate from every other store: a create through
   * it leaves any other store, the library's included, exactly as it was.
   */
  method PostLeavesOtherStores(lib: SecretStore, route: SecretStore, req: CreateRequest, id: Id, now: int)
    returns (response: CreateResponse)
    requires lib != route
    modifies route
    ensures lib.secrets == old(lib.secrets)
    ensures Outcome(response, route.secrets) == PostOutcome(old(route.secrets), req, id, now)
  {
    response := Post(route, req, id, now);
  }

  /**
   * The library module and the route each own a store: writing through the
   * route's create leaves the library's store as it was.
   */
  method SeparateStores(req: CreateRequest, id: Id, now: int) returns (libCount: nat, routeHasId: bool)
    requires Truthy(req.secret)
    requires OrDefault(req.expiryDays, DEFAULT_EXPIRY_DAYS) >= 1 && OrDefault(req.maxViews, DEFAULT_MAX_VIEWS) >= 1
    ensures libCount == 0 && routeHasId
  {
    var lib := new SecretStore();
    var route := new SecretStore();
    var response := Post(route, req, id, now);
    PostKeepsNewRecord(map[], req, id, now);
    libCount := |lib.secrets|;
    routeHasId := id in route.secrets;
  }
}
