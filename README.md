# Content management console — a Dafny model of its core logic

The console is a React admin front end for a content management system.
It has a session (login, registration, logout and a token kept in
`localStorage`), guarded routes, a content editor, a filterable content
list with a delete dialog, and a mocked service layer. This project models
the sequential logic of those pieces and proves what they promise:

- `Types` — the records of `src/types/index.ts` (`User`, `Content`,
  `Category`, `AuthState`, `Partial<...>`), with `Option` standing for
  `null`, `undefined` and optional fields.
- `Text` — the JavaScript string built-ins the core calls: the `\s`/`trim`
  white-space set, `trim`, `toLowerCase` (ASCII letters) and `includes`.
- `Seqs` — `Array.prototype.filter` and what it keeps (members, order,
  multiplicities).
- `Auth` — `src/context/AuthContext.tsx`: the pure reducer, the initial
  state, and a `Session` class holding the reducer state and the stored
  token. Each `Session` method dispatches and then runs the token effect.
  The password-confirmation guard of the registration form sits in front
  of `register`.
- `Routing` — `src/App.tsx`: `ProtectedRoute` and the route table. A path
  is its list of segments.
- `ContentList` — `src/components/content/ContentList.tsx`: the chip
  colour and label of a status, and the spinner / empty notice / table
  choice.
- `ContentForm` — `src/components/content/ContentForm.tsx`: slug
  generation, the tag list, the category lookup, the submitted record, and
  a `Form` class with the component's state fields.
- `ContentListPage` — `src/pages/ContentListPage.tsx`: the two-stage
  filter, and a `Page` class for the list, the filter inputs and the delete
  dialog.
- `Api` — `src/services/api.ts`: the request interceptor (with the header
  form of section 2.1 of RFC 6750) and the record builders of the content
  and category services.

A few outside values become parameters:
- whether a mocked backend call resolves is `resolves`, `deleted` or an
  `Option` result;
- a clock reading (`new Date()`) is a `Timestamp`;
- a random id is an `id` argument;
- what storage holds under `"token"` is an `Option<string>`.

`useEffect` hooks become explicit steps:
- `Session.Dispatch` runs the token effect after the reducer;
- `Form.RegenerateSlug` is the slug effect;
- `Page.Refilter` is the filtering effect.

The form builds its category list with `find(...) as Category`. For an id
that is not among the loaded categories (for instance while they are still
loading) this gives `undefined`. The model keeps that behaviour: category
entries are `Option<Category>`, and `LookupAll` states when an entry is
missing.

## Model

| member | source | states |
|---|---|---|
| Text.IsJsSpace | src/components/content/ContentForm.tsx:72 | the `\s` class, which is also what `trim` strips: no white-space character is a word character or `-` |
| Text.Lower | src/components/content/ContentForm.tsx:70 | `toLowerCase`: same length, each ASCII upper-case letter mapped to its lower-case letter, every other character kept |
| Text.LowerIdempotent | src/pages/ContentListPage.tsx:59-60 | lower-casing twice is lower-casing once |
| Text.Trim | src/components/content/ContentForm.tsx:83-84 | `trim`: the result is a slice of the input with only white space before and after it, and it neither starts nor ends with white space; it is empty only when the input is all white space |
| Text.TrimIdempotent | src/components/content/ContentForm.tsx:83-84 | trimming a trimmed string changes nothing |
| Text.Contains | src/pages/ContentListPage.tsx:59-60 | `includes`: the substring occurs at some index, so it is never longer than the string; `ContainsEmpty` gives the empty case |
| Text.ContainsEmpty | src/pages/ContentListPage.tsx:59-60 | every string includes the empty string |
| Seqs.Filter | src/pages/ContentListPage.tsx:57-65 | `filter` never lengthens; which elements it keeps, in what order and how often is stated by `FilterMembers`, `FilterIsSubsequence` and `FilterCount` |
| Seqs.FilterMembers | src/pages/ContentListPage.tsx:57-65 | `filter` keeps exactly the elements that pass the test |
| Seqs.FilterIsSubsequence | src/pages/ContentListPage.tsx:57-65 | what `filter` keeps is a subsequence of its input, in order |
| Seqs.FilterFilter | src/pages/ContentListPage.tsx:57-65 | two filters in a row are one filter by the conjunction of the tests |
| Seqs.FilterCount | src/components/content/ContentForm.tsx:90 | `filter` keeps every occurrence of a passing element and no occurrence of a failing one |
| Auth.InitialState | src/context/AuthContext.tsx:15-21 | only the stored token is read: authenticated exactly when that token is truthy, never a user, not loading, no error; the state is well-formed |
| Auth.Reduce | src/context/AuthContext.tsx:24-63 | the reducer keeps `isAuthenticated` equal to the truthiness of `token` and keeps every loading state error-free, for actions whose success token is non-empty; a state only becomes authenticated with its error cleared |
| Auth.ReduceAll | src/context/AuthContext.tsx:83 | dispatching actions in order through the reducer; after a final LOGOUT the session is signed out with no user and no token whatever came before; `ReduceAllWellFormed` gives preservation of well-formedness |
| Auth.RequestMarksPending | src/context/AuthContext.tsx:26-32 | a REQUEST sets loading and clears the error; user, token and authentication stay |
| Auth.SuccessSettles | src/context/AuthContext.tsx:33-42 | a SUCCESS authenticates with the payload's user and token, ends loading and clears the error |
| Auth.FailureClears | src/context/AuthContext.tsx:43-52 | a FAILURE drops user, token and authentication, ends loading and records the message |
| Auth.LogoutClears | src/context/AuthContext.tsx:53-59 | LOGOUT drops user, token and authentication and leaves loading and error alone |
| Auth.LogoutIdempotent | src/context/AuthContext.tsx:53-59 | two LOGOUTs give the state one gives |
| Auth.LoginRegisterAlike | src/context/AuthContext.tsx:25-52 | the login and register variants of each action reduce identically |
| Auth.ReduceAllWellFormed | src/context/AuthContext.tsx:24-63 | any sequence of proper actions keeps a well-formed state well-formed |
| Auth.Persisted | src/context/AuthContext.tsx:86-92 | storage holds the token when it is truthy and nothing otherwise |
| Auth.ReloadKeepsOnlyToken | src/context/AuthContext.tsx:15-21 | reloading after a well-formed state keeps its authentication and token but loses its user |
| Auth.LoginUser | src/context/AuthContext.tsx:104-111 | the user the login mock resolves with: id "1", role admin, the given email |
| Auth.RegisterUser | src/context/AuthContext.tsx:140-147 | the user the registration mock resolves with: id "2", role editor, the given username and email |
| Auth.LoginActions | src/context/AuthContext.tsx:95-124 | `login` dispatches REQUEST first, then SUCCESS with the login user and the fixed token when the exchange resolves, or FAILURE with the fixed login message when it rejects; both are proper |
| Auth.RegisterActions | src/context/AuthContext.tsx:128-160 | `register` dispatches REQUEST first, then SUCCESS with the registration user and the fixed token, or FAILURE with the fixed registration message; both are proper |
| Auth.LoginPendingInBetween | src/context/AuthContext.tsx:95-118 | between its two dispatches `login` leaves the session loading without error, token and user untouched |
| Auth.Session.constructor | src/context/AuthContext.tsx:83-92 | mounting: the initial state, and storage synchronised with its token |
| Auth.Session.Dispatch | src/context/AuthContext.tsx:83-92 | a dispatch reduces the state and the effect then re-synchronises storage |
| Auth.Session.Login | src/context/AuthContext.tsx:95-124 | on success: authenticated as the login user with the fixed token, which storage then holds; on failure: signed out with the fixed login message and storage emptied |
| Auth.Session.Register | src/context/AuthContext.tsx:128-160 | the same for registration, with the registration user and message |
| Auth.Session.Logout | src/context/AuthContext.tsx:164-166 | signed out, loading and error kept, storage emptied |
| Auth.SubmitRegistration | src/components/auth/RegisterForm.tsx:23-33 | a mismatched confirmation reports the fixed message and leaves the session and storage alone; otherwise the message is cleared and `register` runs |
| Routing.ProtectedRoute | src/App.tsx:19-29 | redirect to `/login` exactly when not authenticated; otherwise the child itself, whatever the user |
| Routing.Route | src/App.tsx:79-116 | undeclared paths go to `/dashboard`; guarded paths render exactly when authenticated; every redirect goes to `/login` or `/dashboard` |
| Routing.Follow | src/App.tsx:24-25 | the router following a `<Navigate>` (the guard's, and those of lines 114-115): a page stays as it is, and any redirect it reaches goes to `/login` or `/dashboard` |
| Routing.LoginRegisterUnguarded | src/App.tsx:80-81 | `/login` and `/register` render their pages in every session and are not guarded |
| Routing.GuardedRoutes | src/App.tsx:82-113 | `/dashboard`, `/contents`, `/contents/new` and `/contents/edit/:id` go through the guard with their page |
| Routing.FallbackToDashboard | src/App.tsx:114-115 | `/` and unknown paths redirect to `/dashboard`; an anonymous session then lands on the login page, an authenticated one on the dashboard |
| Routing.ViewLinkFallsThrough | src/components/content/ContentList.tsx:144-150 | the list's `/contents/view/:id` link is not routed and falls to `/dashboard` |
| ContentList.StatusColor | src/components/content/ContentList.tsx:37-48 | published, draft and archived (and only they) get success, warning and error; anything else gets default |
| ContentList.StatusLabel | src/components/content/ContentList.tsx:50-61 | published, draft and archived read "Publicado", "Rascunho" and "Arquivado"; any other status is its own label |
| ContentList.ColorDefaultIffLabelVerbatim | src/components/content/ContentList.tsx:37-61 | a status gets the default colour exactly when its label is the status itself |
| ContentList.StatusesColoured | src/components/content/ContentList.tsx:37-61 | each of the three statuses has its own colour and a translated label |
| ContentList.SelectView | src/components/content/ContentList.tsx:71-98 | the spinner exactly while loading; the empty notice exactly when not loading and empty; otherwise the table of the given contents |
| ContentForm.Slugify | src/components/content/ContentForm.tsx:69-72 | the generated slug is never longer than the title; `SlugCharset`, `SlugNoDoubleDash` and `SlugLettersFromTitle` state its characters, its dashes and its letters |
| ContentForm.StripNonWord | src/components/content/ContentForm.tsx:71 | exactly the word and white-space characters of the input remain, in their order and each as often as it occurred; every other character is deleted |
| ContentForm.CollapseSpaces | src/components/content/ContentForm.tsx:72 | `.replace(/\s+/g, "-")` never lengthens; `CollapseMaximalRun` states that each maximal white-space run becomes exactly one `-` |
| ContentForm.CollapseChars | src/components/content/ContentForm.tsx:72 | the output has `-` or non-space input characters only, and starts with `-` exactly when the input starts with white space |
| ContentForm.SlugCharset | src/components/content/ContentForm.tsx:69-72 | every slug character is in `[a-z0-9_]` or is `-`, and none is white space |
| ContentForm.CollapseNoDoubleDash | src/components/content/ContentForm.tsx:72 | without `-` in the input, no two `-` end up adjacent |
| ContentForm.SlugNoDoubleDash | src/components/content/ContentForm.tsx:69-72 | a generated slug never has two adjacent `-` |
| ContentForm.CollapseDashesAreSpaces | src/components/content/ContentForm.tsx:72 | dropping the output's `-` gives the input without its white space |
| ContentForm.SlugLettersFromTitle | src/components/content/ContentForm.tsx:69-72 | dropping the slug's `-` gives exactly the word characters of the lower-cased title, in order |
| ContentForm.CollapseWithoutSpaces | src/components/content/ContentForm.tsx:72 | input without white space comes out unchanged |
| ContentForm.NoSpaceNoDash | src/components/content/ContentForm.tsx:69-72 | a title without white space gives a slug without `-` |
| ContentForm.CollapseAppend | src/components/content/ContentForm.tsx:72 | the white-space replacement works piecewise on both sides of a boundary that does not split a white-space run |
| ContentForm.CollapseRun | src/components/content/ContentForm.tsx:72 | a non-empty white-space run before a non-space character or the end becomes one `-` |
| ContentForm.CollapseMaximalRun | src/components/content/ContentForm.tsx:72 | `/\s+/g` → `-`: every maximal white-space run, wherever it sits, becomes exactly one `-` and the parts around it are replaced independently |
| ContentForm.CollapseSpacedPair | src/components/content/ContentForm.tsx:72 | one space between two other characters becomes one `-` |
| ContentForm.StripDashedPair | src/components/content/ContentForm.tsx:71 | a `-` between two word characters is deleted |
| ContentForm.SlugOfSpacedPair | src/components/content/ContentForm.tsx:69-72 | "a b" becomes "a-b" |
| ContentForm.SlugOfDashedPair | src/components/content/ContentForm.tsx:69-72 | "a-b" becomes "ab" |
| ContentForm.SlugifyNotIdempotent | src/components/content/ContentForm.tsx:69-72 | slug generation applied to its own output can change it |
| ContentForm.WithTag | src/components/content/ContentForm.tsx:82-87 | a tag is appended exactly when the trimmed input is non-empty and new; the old list is kept as a prefix; the members are the old ones plus that tag; a duplicate-free list stays duplicate-free |
| ContentForm.WithTagIdempotent | src/components/content/ContentForm.tsx:82-87 | adding the same input twice is adding it once |
| ContentForm.WithoutTag | src/components/content/ContentForm.tsx:89-91 | the members are the old ones but the removed tag, kept in order as a subsequence |
| ContentForm.WithoutTagCounts | src/components/content/ContentForm.tsx:89-91 | every occurrence of the removed tag goes, every other tag keeps its number of occurrences |
| ContentForm.RemoveUndoesAdd | src/components/content/ContentForm.tsx:82-91 | removing a tag that was just added restores the list |
| ContentForm.FindCategory | src/components/content/ContentForm.tsx:104 | `find`: a category is found exactly when one has the id, and it is the first with that id |
| ContentForm.FindUniqueCategory | src/components/content/ContentForm.tsx:103-106 | with unique ids the lookup returns the category that has the id |
| ContentForm.LookupAll | src/components/content/ContentForm.tsx:103-106 | one entry per selected id, present exactly when a loaded category has that id, and then the first loaded category with that id, as `find` returns |
| ContentForm.Submitted | src/components/content/ContentForm.tsx:96-108 | the form's title, slug, body, status and tags override the initial content; an empty excerpt becomes undefined; categories are `LookupAll` of the selected ids, so each present entry is the first loaded category with that id; id, author, image and dates come from the initial content |
| ContentForm.CategoryIds | src/components/content/ContentForm.tsx:42-44 | the ids of the initial categories, in order, or none without a list |
| ContentForm.InitialSlug | src/components/content/ContentForm.tsx:67-75 | the initial slug when truthy; otherwise the slug of a non-empty initial title, or empty |
| ContentForm.UntouchedSubmitKeepsContent | src/components/content/ContentForm.tsx:96-108 | submitting an untouched form returns the initial content when it has every field the form writes and its categories are loaded under unique ids |
| ContentForm.SavedSubmission | src/components/content/ContentForm.tsx:96-108 | after the service's update the record carries the form's fields, no excerpt for an empty one, and a publication date exactly for a published status |
| ContentForm.Form.constructor | src/components/content/ContentForm.tsx:35-75 | mounting: `||` defaults, status draft by default, the initial category ids, the category fetch started, the slug effect run once |
| ContentForm.Form.RegenerateSlug | src/components/content/ContentForm.tsx:67-75 | the slug becomes the title's slug exactly when the initial content has no slug and the title is non-empty; nothing else changes |
| ContentForm.Form.CategoriesLoaded | src/components/content/ContentForm.tsx:50-64 | a successful fetch replaces the categories; loading ends either way |
| ContentForm.Form.SetInitial | src/components/content/ContentForm.tsx:66-75 | a new `initialContent` prop replaces the spread record and leaves the fields alone; the slug is regenerated from the title exactly when the prop's slug changed to a falsy one and the title is non-empty |
| ContentForm.Form.SetTitle | src/components/content/ContentForm.tsx:132 | a changed title re-runs the slug effect; an unchanged one touches nothing |
| ContentForm.Form.SetSlug | src/components/content/ContentForm.tsx:142 | the slug field edited by hand |
| ContentForm.Form.SetFields | src/components/content/ContentForm.tsx:155-198 | the body, excerpt, status and category fields edited |
| ContentForm.Form.SetTagInput | src/components/content/ContentForm.tsx:233 | the tag field edited |
| ContentForm.Form.AddTag | src/components/content/ContentForm.tsx:82-87 | the tags become `WithTag` of the old tags and input; the input is cleared exactly when a tag was added; no duplicates appear |
| ContentForm.Form.RemoveTag | src/components/content/ContentForm.tsx:89-91 | the tags become `WithoutTag`: the tag is gone, the rest in order |
| ContentForm.Form.Submit | src/components/content/ContentForm.tsx:93-111 | the record handed to `onSubmit` is `Submitted` of the current fields |
| ContentListPage.MatchesSearch | src/pages/ContentListPage.tsx:57-61 | the case-insensitive search test on title or body; the empty term matches every item |
| ContentListPage.FilterContents | src/pages/ContentListPage.tsx:52-69 | the filtering effect never lengthens the list; `FilterContentsIsOneFilter`, `FilterContentsMembers` and `FilterContentsOrderAndCounts` state what it keeps |
| ContentListPage.FilterContentsIsOneFilter | src/pages/ContentListPage.tsx:52-69 | the two-stage filter equals one filter by the combined test |
| ContentListPage.FilterContentsMembers | src/pages/ContentListPage.tsx:54-68 | an item is shown exactly when it is in the list, its lower-cased title or body includes the lower-cased non-empty term, and it passes the status filter |
| ContentListPage.FilterContentsOrderAndCounts | src/pages/ContentListPage.tsx:54-68 | shown items keep the list's order, and a shown item appears as often as in the list |
| ContentListPage.NoFilterShowsAll | src/pages/ContentListPage.tsx:54-66 | with an empty term and "all" the whole list is shown |
| ContentListPage.StatusFilterHolds | src/pages/ContentListPage.tsx:64-65 | with a filter other than "all" every shown item has that status |
| ContentListPage.EmptyTermMatchesAll | src/pages/ContentListPage.tsx:56-61 | the empty term would match every item, so the truthiness guard does not change the result |
| ContentListPage.WithoutContent | src/pages/ContentListPage.tsx:80-82 | the items whose id differs from the deleted one, in order, each as often as it was listed; no item with the id remains |
| ContentListPage.Page.constructor | src/pages/ContentListPage.tsx:27-33 | mounting: empty lists, loading, empty term, "all", dialog closed, no id |
| ContentListPage.Page.Refilter | src/pages/ContentListPage.tsx:52-69 | the shown list becomes the filter of the list by the term and the status filter |
| ContentListPage.Page.ContentsLoaded | src/pages/ContentListPage.tsx:35-50 | a successful fetch replaces the list and refilters; loading ends either way |
| ContentListPage.Page.SetSearchTerm | src/pages/ContentListPage.tsx:127 | a new term, and the shown list refiltered |
| ContentListPage.Page.SetStatusFilter | src/pages/ContentListPage.tsx:144 | a new status filter, and the shown list refiltered |
| ContentListPage.Page.DeleteClick | src/pages/ContentListPage.tsx:71-74 | the id is remembered and the dialog opened; nothing else changes |
| ContentListPage.Page.DeleteConfirm | src/pages/ContentListPage.tsx:76-90 | without a truthy id nothing changes; with one the dialog closes and the id is cleared whatever happens, and a successful delete removes every item with that id from the list and from the shown list |
| ContentListPage.Page.DeleteCancel | src/pages/ContentListPage.tsx:92-95 | the dialog closes and the id is cleared |
| Api.BearerCredentials | src/services/api.ts:15 | the `Bearer ${token}` value: the scheme and one space, then the token itself; `ParseBearer` inverts it |
| Api.ParseBearer | src/services/api.ts:15 | a header value reads back as a token exactly when it is `Bearer ` followed by that token |
| Api.ParseBearerRoundTrip | src/services/api.ts:15 | reading back the header built from a token gives the token |
| Api.HeaderConformsIffB64Token | src/services/api.ts:13-16 | the header conforms to section 2.1 of RFC 6750 exactly when the token is a `b64token` |
| Api.SignedInHeaderConforms | src/services/api.ts:13-16 | the header sent with the token `login` and `register` store conforms |
| Api.Intercept | src/services/api.ts:11-20 | `Authorization` is set to `Bearer <token>` when the stored token is truthy; otherwise the headers stay as they were |
| Api.ServiceAuthor | src/services/api.ts:157-164 | the fixed admin author of the content mocks |
| Api.CreateContent | src/services/api.ts:146-171 | the given id; missing or empty title, slug and body become ""; status defaults to draft; categories and tags default to []; excerpt passes through; no image; never a publication date |
| Api.UpdateContent | src/services/api.ts:174-204 | the argument id whatever the record's id; the same defaults as creation; a publication date exactly when the status is published |
| Api.UpdateIsCreateWithPublication | src/services/api.ts:146-204 | update and creation build the same record except for the publication date |
| Api.UpdateIdempotent | src/services/api.ts:174-204 | sending back an update's result at the same time returns it unchanged |
| Api.CreateCategory | src/services/api.ts:257-271 | the given id; name and slug default to ""; description passes through; no parent |
| Api.UpdateCategory | src/services/api.ts:273-290 | the argument id; the same defaults |
| Api.UpdateCategoryIsCreate | src/services/api.ts:257-290 | a category update is a creation under the given id |
| Api.UpdateCategoryIdempotent | src/services/api.ts:273-290 | sending back a category update's result returns it unchanged |

## Left out

- `toLowerCase` is modelled for ASCII letters only. Letters outside ASCII (such as `É` or the Kelvin sign) are left unchanged. With the source's Unicode mapping they would be lowered, and the search match would differ for them. The slug differs for two of them: `İ` (U+0130) lowers to `i` plus a combining dot and the Kelvin sign lowers to `k`, so the source's slug keeps an `i` or a `k` where the model's drops the character.
- URL parsing and decoding are left out: a route path is given already split into segments. Route matching ignores ASCII case only, and no trailing-slash or encoding rules are modelled.
- Rendering, MUI components, layout, styling and date formatting are left out. So are the layout, dashboard, login and register page components: they hold no logic beyond the route model.
- `setTimeout` delays, Promise plumbing and the interleaving of concurrent handlers are left out. Each asynchronous handler is one atomic step with its outcome as a parameter. For example, the delete handler's captured `contents` is always the current list.
- `new Date()` and `Math.random()` are parameters, and the axios instance (base URL, timeout) is not modelled.
- The interceptor's header map has case-sensitive keys. axios compares header names case-insensitively.
- `console.error` logging is left out, as are `authService.login`/`register`/`logout`, the duplicate mocks that the session does not call.
- `src/pages/ContentFormPage.tsx` is not part of this model. It is page orchestration around the service calls, with a navigation timer.
- ContentForm.Form.SetFields models the array value of the category select only. The string value that `handleCategoryChange` splits on `,` is not modelled.
- ContentForm.Form.constructor requires every initial category to be present, because the source reads `cat.id` from each entry and would throw on a missing one.
- The fetches of contents and categories are modelled by their settlement (`ContentsLoaded`, `CategoriesLoaded`). The request itself is not.
- Api.ParseBearer accepts exactly one space after `Bearer`, the form the console writes. Section 2.1 of RFC 6750 allows one or more.
- The read-only service calls (`getContents`, `getContentById`, `getCategories`, `getCategoryById`) and the deletes return fixed mock data or nothing, so they are left out.
