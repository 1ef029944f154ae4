/**
 * The service layer of src/services/api.ts: the request interceptor that
 * adds the bearer token, and the record builders of `contentService` and
 * `categoryService`. The backend is mocked in the source; a builder here
 * is the record its promise resolves with, the random id and the clock
 * reading being parameters.
 */
module Api {
  import opened Types
  import Auth

  // ---------------------------------------------------------------------
  // The request interceptor and the form of its header
  // ---------------------------------------------------------------------

  const AuthorizationKey := "Authorization"

  /** The `Bearer ${token}` header value. */
  function BearerCredentials(token: string): (h: string)
    ensures |h| == |token| + 7 && h[..7] == "Bearer " && h[7..] == token
  {
    "Bearer " + token
  }

  /** Reading a header value back: the token after the scheme `Bearer` and one space. */
  function ParseBearer(h: string): (r: Option<string>)
    ensures r.Some? ==> BearerCredentials(r.value) == h
    ensures r.None? ==> forall t :: BearerCredentials(t) != h
  {
    if |h| >= 7 && h[..7] == "Bearer " then
      assert "Bearer " + h[7..] == h;
      Some(h[7..])
    else
      assert forall t :: ("Bearer " + t)[..7] == "Bearer ";
      None
  }

  /** Reading back the header built from a token gives the token. */
  lemma ParseBearerRoundTrip(token: string)
    ensures ParseBearer(BearerCredentials(token)) == Some(token)
  {
    assert BearerCredentials(token)[..7] == "Bearer ";
    assert BearerCredentials(token)[7..] == token;
  }

  /** A character of the `b64token` rule of section 2.1 of RFC 6750. */
  predicate B64Char(c: char) {
    ('A' <= c <= 'Z') || ('a' <= c <= 'z') || ('0' <= c <= '9')
    || c == '-' || c == '.' || c == '_' || c == '~' || c == '+' || c == '/'
  }

  /** The first `k` characters of `t` are `b64token` characters and the rest are `=` padding. */
  predicate PaddedAt(t: string, k: int) {
    && 0 <= k <= |t|
    && (forall i :: 0 <= i < k ==> B64Char(t[i]))
    && (forall i :: k <= i < |t| ==> t[i] == '=')
  }

  /** `b64token = 1*( ALPHA / DIGIT / "-" / "." / "_" / "~" / "+" / "/" ) *"="`. */
  predicate B64Token(t: string) {
    exists k :: 1 <= k <= |t| && PaddedAt(t, k)
  }

  /** A header value of the form `"Bearer" 1*SP b64token` (with the single space the console writes). */
  predicate ConformsToRfc6750(h: string) {
    ParseBearer(h).Some? && B64Token(ParseBearer(h).value)
  }

  /** The header built from a token conforms to section 2.1 of RFC 6750 exactly when the token is a `b64token`. */
  lemma HeaderConformsIffB64Token(token: string)
    ensures ConformsToRfc6750(BearerCredentials(token)) <==> B64Token(token)
  {
    ParseBearerRoundTrip(token);
  }

  /** The token `login` and `register` store is a `b64token`, so the header the console sends after signing in conforms. */
  lemma SignedInHeaderConforms()
    ensures ConformsToRfc6750(BearerCredentials(Auth.FakeToken))
  {
    var t := Auth.FakeToken;
    assert PaddedAt(t, |t|);
    HeaderConformsIffB64Token(t);
  }

  /** The headers of an outgoing request, which the interceptor changes in place. */
  class RequestConfig {
    var headers: map<string, string>

    constructor (initial: map<string, string>)
      ensures headers == initial
    {
      headers := initial;
    }
  }

  /** The request interceptor; `stored` is what storage holds under `"token"`. */
  method Intercept(config: RequestConfig, stored: Option<string>) returns (result: RequestConfig)
    modifies config
    ensures result == config
    ensures Truthy(stored) ==>
      config.headers == old(config.headers)[AuthorizationKey := BearerCredentials(stored.value)]
    ensures !Truthy(stored) ==> config.headers == old(config.headers)
  {
    if Truthy(stored) {
      config.headers := config.headers[AuthorizationKey := BearerCredentials(stored.value)];
    }
    result := config;
  }

  // ---------------------------------------------------------------------
  // Record builders
  // ---------------------------------------------------------------------

  /** `field || ""` as the builders use it: the value when truthy, the empty string otherwise. */
  predicate Defaulted(s: string, field: Option<string>) {
    if Truthy(field) then s == field.value else s == ""
  }

  /** The author every mocked content response carries. */
  function ServiceAuthor(now: Timestamp): (u: User)
    ensures u.id == "1" && u.role == Admin && u.avatar == None
  {
    User("1", "admin", "admin@example.com", Admin, None, now, now)
  }

  /** `contentService.createContent(content)`; `id` stands for the random id. */
  function CreateContent(content: PartialContent, id: string, now: Timestamp): (r: Content)
    ensures r.id == id
    ensures Defaulted(r.title, content.title) && Defaulted(r.slug, content.slug) && Defaulted(r.body, content.body)
    ensures r.excerpt == content.excerpt && r.featuredImage == None
    ensures r.status == (if content.status.Some? then content.status.value else Draft)
    ensures r.categories == (if content.categories.Some? then content.categories.value else [])
    ensures r.tags == (if content.tags.Some? then content.tags.value else [])
    ensures r.author == ServiceAuthor(now) && r.createdAt == now && r.updatedAt == now
    ensures r.publishedAt == None
  {
    Content(id, OrEmpty(content.title), OrEmpty(content.slug), OrEmpty(content.body),
            content.excerpt, None, content.status.GetOr(Draft), ServiceAuthor(now),
            content.categories.GetOr([]), content.tags.GetOr([]), now, now, None)
  }

  /** `contentService.updateContent(id, content)`. */
  function UpdateContent(id: string, content: PartialContent, now: Timestamp): (r: Content)
    ensures r.id == id
    ensures Defaulted(r.title, content.title) && Defaulted(r.slug, content.slug) && Defaulted(r.body, content.body)
    ensures r.excerpt == content.excerpt && r.featuredImage == None
    ensures r.status == (if content.status.Some? then content.status.value else Draft)
    ensures r.categories == (if content.categories.Some? then content.categories.value else [])
    ensures r.tags == (if content.tags.Some? then content.tags.value else [])
    ensures r.author == ServiceAuthor(now) && r.createdAt == now && r.updatedAt == now
    ensures r.publishedAt.Some? <==> content.status == Some(Published)
    ensures r.publishedAt.Some? ==> r.publishedAt.value == now
  {
    Content(id, OrEmpty(content.title), OrEmpty(content.slug), OrEmpty(content.body),
            content.excerpt, None, content.status.GetOr(Draft), ServiceAuthor(now),
            content.categories.GetOr([]), content.tags.GetOr([]), now, now,
            if content.status == Some(Published) then Some(now) else None)
  }

  /** A full record seen as a `Partial<Content>` with every field present. */
  function ToPartial(c: Content): (p: PartialContent)
    ensures p.id == Some(c.id) && p.title == Some(c.title) && p.status == Some(c.status)
  {
    PartialContent(Some(c.id), Some(c.title), Some(c.slug), Some(c.body), c.excerpt,
                   c.featuredImage, Some(c.status), Some(c.author), Some(c.categories),
                   Some(c.tags), Some(c.createdAt), Some(c.updatedAt), c.publishedAt)
  }

  /** Updating and creating build the same record, except that only an update stamps `publishedAt`. */
  lemma UpdateIsCreateWithPublication(id: string, content: PartialContent, now: Timestamp)
    ensures UpdateContent(id, content, now)
      == CreateContent(content, id, now).(publishedAt := if content.status == Some(Published) then Some(now) else None)
  {
  }

  /** Sending back what an update returned, at the same time, returns it unchanged. */
  lemma UpdateIdempotent(id: string, content: PartialContent, now: Timestamp)
    ensures var r := UpdateContent(id, content, now);
      UpdateContent(id, ToPartial(r), now) == r
  {
  }

  /** `categoryService.createCategory(category)`; `id` stands for the random id. */
  function CreateCategory(category: PartialCategory, id: string, now: Timestamp): (r: Category)
    ensures r.id == id
    ensures Defaulted(r.name, category.name) && Defaulted(r.slug, category.slug)
    ensures r.description == category.description && r.parentCategory == None
    ensures r.createdAt == now && r.updatedAt == now
  {
    Category(id, OrEmpty(category.name), OrEmpty(category.slug), category.description, None, now, now)
  }

  /** `categoryService.updateCategory(id, category)`. */
  function UpdateCategory(id: string, category: PartialCategory, now: Timestamp): (r: Category)
    ensures r.id == id
    ensures Defaulted(r.name, category.name) && Defaulted(r.slug, category.slug)
    ensures r.description == category.description && r.parentCategory == None
    ensures r.createdAt == now && r.updatedAt == now
  {
    Category(id, OrEmpty(category.name), OrEmpty(category.slug), category.description, None, now, now)
  }

  /** A full category seen as a `Partial<Category>`. */
  function ToPartialCategory(c: Category): (p: PartialCategory)
    ensures p.id == Some(c.id) && p.name == Some(c.name) && p.slug == Some(c.slug)
  {
    PartialCategory(Some(c.id), Some(c.name), Some(c.slug), c.description, c.parentCategory,
                    Some(c.createdAt), Some(c.updatedAt))
  }

  /** For categories, an update is a creation under the given id. */
  lemma UpdateCategoryIsCreate(id: string, category: PartialCategory, now: Timestamp)
    ensures UpdateCategory(id, category, now) == CreateCategory(category, id, now)
  {
  }

  /** Sending back what a category update returned, at the same time, returns it unchanged. */
  lemma UpdateCategoryIdempotent(id: string, category: PartialCategory, now: Timestamp)
    ensures var r := UpdateCategory(id, category, now);
      UpdateCategory(id, ToPartialCategory(r), now) == r
  {
  }
}
