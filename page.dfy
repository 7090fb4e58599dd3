/**
 * The create form (src/app/page.tsx): its validation schema, its default
 * values, the choice of encryption key, the JSON body it posts and the link
 * it shows. The AES encryption itself is a parameter `encrypt`
 * (plaintext, key) -> ciphertext.
 */
module Page {
  import opened Wrappers
  import opened Store
  import Route

  /** The form's fields; the passkey is optional. */
  datatype FormData = FormData(secret: string, expiryDays: int, maxViews: int, passkey: Option<string>)

  const MIN_EXPIRY_DAYS: int := 1
  const MAX_EXPIRY_DAYS: int := 30
  const MIN_VIEWS: int := 1
  const MAX_VIEWS: int := 100

  /** The form's default values. */
  const FORM_DEFAULT_EXPIRY_DAYS: int := 7
  const FORM_DEFAULT_MAX_VIEWS: int := 1

  const DEFAULT_KEY: string := "default-key"
  const SECRET_PATH: string := "/secret/"
  const FAILED_TO_CREATE: string := "Failed to create secret"

  /**
   * `formSchema`: a non-empty secret, 1..30 days, 1..100 views, any passkey.
   * A valid form has no falsy field: the secret is non-empty and both
   * numbers are positive.
   */
  predicate SchemaValid(d: FormData): (valid: bool)
    ensures valid ==> d.secret != [] && d.expiryDays > 0 && d.maxViews > 0
  {
    && |d.secret| >= 1
    && MIN_EXPIRY_DAYS <= d.expiryDays <= MAX_EXPIRY_DAYS
    && MIN_VIEWS <= d.maxViews <= MAX_VIEWS
  }

  /** The schema's bounds, both directions, per field. */
  lemma SchemaBounds(d: FormData)
    ensures SchemaValid(d) <==> d.secret != [] && 1 <= d.expiryDays <= 30 && 1 <= d.maxViews <= 100
  {
  }

  /** Any non-empty secret with the default 7 days and 1 view passes the schema. */
  lemma DefaultsSatisfySchema(secret: string, passkey: Option<string>)
    requires secret != []
    ensures SchemaValid(FormData(secret, FORM_DEFAULT_EXPIRY_DAYS, FORM_DEFAULT_MAX_VIEWS, passkey))
  {
  }

  /**
   * The key handed to the cipher: the passkey if it is a non-empty string,
   * otherwise the shared constant; an empty passkey behaves like none.
   */
  function EncryptionKey(passkey: Option<string>): (key: string)
    ensures key != []
    ensures passkey.Some? && passkey.value != [] ==> key == passkey.value
    ensures passkey.None? || passkey.value == [] ==> key == DEFAULT_KEY
  {
    if passkey.Some? && passkey.value != [] then passkey.value else DEFAULT_KEY
  }

  /**
   * The body of `onSubmit`'s request: the ciphertext under `secret`, the two
   * numbers forwarded unchanged.
   */
  function RequestBody(d: FormData, encrypt: (string, string) -> string): (req: Route.CreateRequest)
    ensures req.secret == Some(encrypt(d.secret, EncryptionKey(d.passkey)))
    ensures req.expiryDays == Some(d.expiryDays) && req.maxViews == Some(d.maxViews)
  {
    Route.CreateRequest(Some(encrypt(d.secret, EncryptionKey(d.passkey))), Some(d.expiryDays), Some(d.maxViews))
  }

  /** `${origin}/secret/${id}`: the origin, the fixed path, then the id. */
  function SecretLink(origin: string, id: Id): (link: string)
    ensures |link| == |origin| + |SECRET_PATH| + |id|
    ensures link[..|origin|] == origin
    ensures link[|origin|..|origin| + |SECRET_PATH|] == SECRET_PATH
    ensures link[|origin| + |SECRET_PATH|..] == id
  {
    origin + SECRET_PATH + id
  }

  /** Two links from one origin are equal only for equal ids. */
  lemma SecretLinkInjective(origin: string, id1: Id, id2: Id)
    requires SecretLink(origin, id1) == SecretLink(origin, id2)
    ensures id1 == id2
  {
    var n := |origin| + |SECRET_PATH|;
    assert id1 == SecretLink(origin, id1)[n..];
  }

  /** What the page shows after the response: the link, or an error message. */
  datatype SubmitResult = Link(link: string) | Error(message: string)

  /**
   * `onSubmit` after the response: a success becomes the link; a failure
   * shows the server's error text, or a fixed message when it is empty.
   */
  function ShowResponse(origin: string, response: Route.CreateResponse): (r: SubmitResult)
    ensures response.Created? ==> r == Link(SecretLink(origin, response.id))
    ensures response.BadRequest? ==> r.Error? && r.message != []
    ensures response.BadRequest? && response.error != [] ==> r == Error(response.error)
    ensures response.BadRequest? && response.error == [] ==> r == Error(FAILED_TO_CREATE)
  {
    match response
    case Created(id) => Link(SecretLink(origin, id))
    case BadRequest(error) => Error(if error != [] then error else FAILED_TO_CREATE)
  }

  /** For schema-valid input the server's `|| 7` and `|| 1` fallbacks never fire. */
  lemma ValidFormSkipsServerDefaults(d: FormData, encrypt: (string, string) -> string)
    requires SchemaValid(d)
    ensures Route.OrDefault(RequestBody(d, encrypt).expiryDays, Route.DEFAULT_EXPIRY_DAYS) == d.expiryDays
    ensures Route.OrDefault(RequestBody(d, encrypt).maxViews, Route.DEFAULT_MAX_VIEWS) == d.maxViews
  {
  }

  /**
   * End to end: a schema-valid form whose ciphertext is non-empty is created
   * with the numbers as entered, survives the route's sweep, and the page
   * shows the link to it.
   */
  lemma ValidFormCreatesLiveRecord(m: map<Id, Record>, d: FormData, encrypt: (string, string) -> string,
                                   origin: string, id: Id, now: int)
    requires SchemaValid(d)
    requires encrypt(d.secret, EncryptionKey(d.passkey)) != []
    ensures var o := Route.PostOutcome(m, RequestBody(d, encrypt), id, now);
      && id in o.secrets
      && o.secrets[id] == Record(encrypt(d.secret, EncryptionKey(d.passkey)), now + d.expiryDays * DAY_MS, d.maxViews, 0)
      && ShowResponse(origin, o.response) == Link(SecretLink(origin, id))
  {
    var req := RequestBody(d, encrypt);
    ValidFormSkipsServerDefaults(d, encrypt);
    Route.PostKeepsNewRecord(m, req, id, now);
  }
}
