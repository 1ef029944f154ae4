/**
 * The records of the console (src/types/index.ts) and the Option wrapper
 * that stands for TypeScript's `T | null`, `T | undefined` and optional
 * (`?`) fields.
 */
module Types {

  datatype Option<+T> = None | Some(value: T) {
    function GetOr(default: T): T {
      match this
      case Some(v) => v
      case None => default
    }
  }

  /** A reading of the clock (`new Date()`); the model never inspects it. */
  type Timestamp = nat

  /** JavaScript truthiness of a `string | null | undefined`: present and non-empty. */
  predicate Truthy(s: Option<string>) {
    s.Some? && s.value != ""
  }

  /** `s || ""`: the string when it is truthy, the empty string otherwise. */
  function OrEmpty(s: Option<string>): (r: string)
    ensures Truthy(s) ==> r == s.value
    ensures !Truthy(s) ==> r == ""
  {
    s.GetOr("")
  }

  datatype Role = Admin | Editor | Viewer

  datatype User = User(
    id: string,
    username: string,
    email: string,
    role: Role,
    avatar: Option<string>,
    createdAt: Timestamp,
    updatedAt: Timestamp)

  /** The three values of the `status` union. */
  datatype Status = Draft | Published | Archived

  /** The string a `status` value is at run time. */
  function StatusName(s: Status): (r: string)
    ensures r != "all"
  {
    match s
    case Draft => "draft"
    case Published => "published"
    case Archived => "archived"
  }

  datatype Category = Category(
    id: string,
    name: string,
    slug: string,
    description: Option<string>,
    parentCategory: Option<Category>,
    createdAt: Timestamp,
    updatedAt: Timestamp)

  /**
   * A content item. The form builds `categories` with `find(...) as Category`,
   * which yields `undefined` for an id that is not among the loaded
   * categories; the cast hides this from TypeScript, so an entry is an
   * `Option<Category>` here.
   */
  datatype Content = Content(
    id: string,
    title: string,
    slug: string,
    body: string,
    excerpt: Option<string>,
    featuredImage: Option<string>,
    status: Status,
    author: User,
    categories: seq<Option<Category>>,
    tags: seq<string>,
    createdAt: Timestamp,
    updatedAt: Timestamp,
    publishedAt: Option<Timestamp>)

  /** `Partial<Content>`: every field may be missing. */
  datatype PartialContent = PartialContent(
    id: Option<string>,
    title: Option<string>,
    slug: Option<string>,
    body: Option<string>,
    excerpt: Option<string>,
    featuredImage: Option<string>,
    status: Option<Status>,
    author: Option<User>,
    categories: Option<seq<Option<Category>>>,
    tags: Option<seq<string>>,
    createdAt: Option<Timestamp>,
    updatedAt: Option<Timestamp>,
    publishedAt: Option<Timestamp>)

  /** `Partial<Category>`. */
  datatype PartialCategory = PartialCategory(
    id: Option<string>,
    name: Option<string>,
    slug: Option<string>,
    description: Option<string>,
    parentCategory: Option<Category>,
    createdAt: Option<Timestamp>,
    updatedAt: Option<Timestamp>)

  datatype AuthState = AuthState(
    user: Option<User>,
    token: Option<string>,
    isAuthenticated: bool,
    isLoading: bool,
    error: Option<string>)
}
