# Secure-docs core, modelled in Dafny

Secure-docs is a document portal built on Next.js with a Prisma store and next-auth sessions.
Signed-in users read published documents ("posts"). Administrators create documents and user
accounts, and read an audit log of logins and document events. The browser side adds a
protection layer that covers the document's content whenever a capture or leak is suspected.

This project models the parts of the code that decide things:

- `text.dfy` (`Text`): the JavaScript string and truthiness operations the code relies on:
  `||` on optional strings, `startsWith`, `includes`, `split(',')[0]`, code-point order.
- `ordering.dfy` (`Ordering`): a `where` filter and an `orderBy` sort, as `Filter` and a stable
  insertion sort. It proves that the sort permutes its input and, under a total preorder, sorts it.
- `db.dfy` (`Db`): the three tables (users, posts, audit logs) as sequences. `Tables.Valid` holds
  the unique and foreign keys the store enforces. The class `Db` holds the `create` calls, which
  append one row or refuse. A `Reply` says whether the store is reachable during one request and
  which id and timestamp it hands out.
- `queries.dfy` (`Queries`): the four `findMany` orderings the handlers and pages issue.
- `auth.dfy` (`Auth`): the session as the handlers see it, a user id and a role.
- `logger.ts` → `logger.dfy` (`Logger`): `getClientIp` and `createLog`.
- `middleware.ts` → `middleware.dfy` (`Middleware`): the route gate and its `config.matcher`.
- `security.ts` → `security.dfy` (`Security`):
  - `ProtectionLayer` is a class whose methods are the event handlers. Its state is the last
    recorded viewport size, the covers shown and a clock in milliseconds.
  - `CreatePattern` fills an RGBA buffer in place.
- API routes:
  - `api_posts.dfy` (`PostsApi`): `/api/posts`.
  - `api_users.dfy` (`UsersApi`): `/api/users`.
  - `api_admin_users.dfy` (`AdminUsersApi`): `/api/admin/users`.
  - Each `Handle` method maps a session, an HTTP method, a body and the store to a status code and
    a body, and updates the store.
- Pages:
  - `logs_page.dfy` (`LogsPage`): the audit-log page.
  - `posts_page.dfy` (`PostsPage`): the documents page.
  - `error_page.dfy` (`ErrorPage`): the error page.
  - Each has its server-side data function and the text it renders.

## Inputs the code takes from outside

- bcrypt's `hash` is a parameter `hash: string -> string`.
- `Date.prototype.toISOString` is a parameter `iso: int -> string`; timestamps are integers.
- `Math.random()` in the noise fill is a parameter `noise: nat -> Byte`.
- The session (`getServerSession`, `getSession`, `getToken`) is an input `Option<Session>` or `Option<Token>`.
- The content element's bounding box (`querySelector` plus `getBoundingClientRect`) is an input
  `Option<Rect>` to each handler.
- Timers are an explicit clock advanced by `ProtectionLayer.AdvanceClock`.

## Model

| member | source | states |
|---|---|---|
| Text.FirstField | src/utils/logger.ts:11 | the field before the first comma: a prefix of the header, with no comma, ending at the end or at a comma |
| Text.FirstFieldOfJoin | src/utils/logger.ts:11 | for a header made of a field without commas, a comma and anything after, the first field is exactly that field |
| Db.Db.CreateUser | src/pages/api/users/index.ts:31-38 | a user row is appended exactly when the store is up and neither its id nor its email is taken; otherwise the tables are unchanged; keys stay unique |
| Db.Db.CreatePost | src/pages/api/posts/index.ts:48-63 | a post row is appended exactly when the store is up, the id is fresh and the author exists; otherwise nothing changes |
| Db.Db.CreateLog | src/utils/logger.ts:33-40 | a log row is appended exactly when the store is up, the id is fresh and the user (and post, when given) exist; otherwise nothing changes |
| Db.WithoutPasswordKeepsTheRest | src/pages/api/users/index.ts:41 | removing the password drops only that column: putting it back restores the row |
| Queries.PublishedNewestFirst | src/pages/api/posts/index.ts:20-31 | exactly the published posts, each as often as stored, in descending `createdAt` |
| Queries.UsersByName | src/pages/api/users/index.ts:49-52 | a permutation of the users with names in ascending order |
| Queries.UsersNewestFirst | src/pages/api/admin/users/index.ts:21-31 | a permutation of the users in descending `createdAt` |
| Queries.LogsNewestFirst | src/pages/admin/logs.tsx:53-74 | a permutation of the log records in descending `createdAt` |
| Logger.FirstTruthy | src/utils/logger.ts:18-21 | the first non-empty candidate, or the fallback when all are absent or empty |
| Logger.GetClientIp | src/utils/logger.ts:6-22 | a non-empty `x-forwarded-for` gives its untrimmed first field, with no comma; otherwise a non-empty `x-real-ip` unchanged; otherwise the first non-empty peer address, else `0.0.0.0` |
| Logger.OrChainIsFirstTruthy | src/utils/logger.ts:18-21 | the nested `\|\|` chain equals the first-truthy reference definition |
| Logger.ForwardedForShadowsTheRest | src/utils/logger.ts:10-16 | with a non-empty `x-forwarded-for`, no other source affects the result |
| Logger.SentinelWhenNoSource | src/utils/logger.ts:18-21 | with every source absent or empty the result is `0.0.0.0` |
| Logger.EmptyAddressOnlyFromLeadingComma | src/utils/logger.ts:10-21 | the result is empty iff `x-forwarded-for` is non-empty and starts with a comma |
| Logger.ProxyChainExample | src/utils/logger.ts:10-12 | `1.2.3.4, 5.6.7.8` records `1.2.3.4` |
| Logger.UntrimmedExample | src/utils/logger.ts:11 | a space before the comma is kept |
| Logger.PeerAddressExample | src/utils/logger.ts:14-20 | an empty `x-real-ip` is skipped; the socket or connection address is used |
| Logger.LogEntry | src/utils/logger.ts:30-39 | the record carries the given type, user, optional post, and the request's address from `GetClientIp` |
| Logger.CreateLog | src/utils/logger.ts:24-44 | on success exactly one record carrying the request's address is appended; a refused write leaves the tables unchanged and returns normally |
| Logger.KindNeverGatesTheWrite | src/utils/logger.ts:24-40 | whether a record is stored does not depend on its type, with or without a post id |
| Middleware.Decide | src/middleware.ts:5-29 | each of the three outcomes, iff its condition: public prefix or token (outside `/admin` or `ADMIN`) passes; no token goes to sign-in; a non-`ADMIN` token in `/admin` goes to `/` |
| Middleware.PublicPathsPass | src/middleware.ts:10-16 | paths starting with `/auth/signin` or `/auth/signup` pass with or without a token |
| Middleware.PrefixMakesPublic | src/middleware.ts:11 | `/auth/signupX` and `/auth/signin-help` are public too |
| Middleware.NoTokenGoesToSignIn | src/middleware.ts:19-21 | a non-public path without a token redirects to sign-in |
| Middleware.AdminNeverRedirected | src/middleware.ts:14-28 | an `ADMIN` token always passes |
| Middleware.TokenReachesNonAdminPaths | src/middleware.ts:14-28 | any token passes outside `/admin` |
| Middleware.AdminAreaNeedsAdminRole | src/middleware.ts:24-26 | in `/admin` a token is sent to `/` iff its role is not `ADMIN` |
| Middleware.Route | src/middleware.ts:5-42 | with the matcher applied, a redirect to sign-in or to `/` happens exactly on a matched path under the gate's own condition |
| Middleware.ExclusionSurvivesExtension | src/middleware.ts:42 | the matcher's exclusion is a prefix test: an excluded path stays excluded whatever is appended |
| Middleware.ExcludedPathsPass | src/middleware.ts:42 | a path the matcher excludes is never gated |
| Middleware.MatcherExamples | src/middleware.ts:42 | the exclusions are prefix tests (`/api/authors` is excluded); `.` matches any character (`/faviconXico` is excluded); `/api/posts`, `/admin/logs`, `/` are gated |
| Security.MarkerCount | src/utils/security.ts:211-220 | no more markers than nodes, and zero iff no node is a marker |
| Security.StillShown | src/utils/security.ts:73-75 | each cover stays, as many times as it was shown, iff its removal time is later than now; none stay once all are due |
| Security.ProtectionLayer.constructor | src/utils/security.ts:147-148 | the initial size is recorded, no cover is shown, and what existed at arming (content element, `getDisplayMedia`, clipboard) is noted |
| Security.ProtectionLayer.AdvanceClock | src/utils/security.ts:73-75 | due covers are removed; 1000 ms after the last cover none remain |
| Security.ProtectionLayer.HideContent | src/utils/security.ts:53-76 | nothing without a content element; otherwise exactly one cover over its box, due 1000 ms later |
| Security.ProtectionLayer.OnVisibilityChange | src/utils/security.ts:137-141 | a cover only when the state is `hidden` |
| Security.ProtectionLayer.OnBlur | src/utils/security.ts:144 | always a cover |
| Security.ProtectionLayer.OnResize | src/utils/security.ts:147-156 | a cover iff the size differs from the recorded one; the new size is recorded only then |
| Security.ProtectionLayer.Print | src/utils/security.ts:159-162 | always a cover, and the result is `false` |
| Security.ProtectionLayer.GetDisplayMedia | src/utils/security.ts:165-170 | when replaced: a cover and the rejection "Screen capture is not allowed"; otherwise untouched |
| Security.ProtectionLayer.DevToolsPoll | src/utils/security.ts:173-178 | a cover iff the agent contains `Chrome`, the vendor contains `Google Inc`, and the width gap exceeds 160 |
| Security.ProtectionLayer.OnKeyUp | src/utils/security.ts:181-186 | a cover iff the key is `PrintScreen` and the clipboard exists; without it the clearing call throws before the cover |
| Security.ProtectionLayer.OnKeyDown | src/utils/security.ts:189-194 | the default is prevented and a cover raised iff Ctrl is held and the key is `p` |
| Security.ProtectionLayer.OnAddedNodes | src/utils/security.ts:210-220 | one cover per inserted marker element |
| Security.ProtectionLayer.OnMutations | src/utils/security.ts:207-223 | one cover per marker over the whole batch |
| Security.CreatePattern | src/utils/security.ts:26-41 | a zero side becomes 100×100; the buffer has 4 bytes per pixel, alpha bytes are 5 and the others come from the noise source |
| Security.PrintShortcutIsExact | src/utils/security.ts:190 | `p` with Ctrl matches; `P`, or `p` without Ctrl, does not |
| Security.MarkerIffOccurs | src/utils/security.ts:212-218 | an added node counts iff it is an element and `lightshot` or `screenshot` occurs at some index of its id or class name |
| Security.MarkerInsideName | src/utils/security.ts:212-218 | examples: `btn screenshot-tool` as a class name and `lightshot-root` as an id count |
| Security.OtherNodesIgnored | src/utils/security.ts:212 | non-element nodes never count |
| Security.PlainElementIgnored | src/utils/security.ts:213-216 | example: the element `main` with class `post` does not count |
| Security.DevToolsSuspectedIffOccurs | src/utils/security.ts:174-175 | suspected iff `Chrome` occurs in the agent, `Google Inc` occurs in the vendor, and the width gap exceeds 160 |
| Security.DevToolsNeedsGoogleVendor | src/utils/security.ts:174-175 | a vendor in which `Google Inc` occurs nowhere is never suspected |
| Security.ContentListenersSuppressExactlySix | src/utils/security.ts:82-90 | defaults are prevented only inside the content element, only if it existed at arming, and then for exactly the six listed events |
| PostsApi.AuthorOf | src/pages/api/posts/index.ts:22-29 | the author is the stored user the post's foreign key names |
| PostsApi.WithAuthors | src/pages/api/posts/index.ts:22-29 | each post in order beside its own author |
| PostsApi.Listing | src/pages/api/posts/index.ts:18-33 | the listing follows the published, newest-first posts one for one |
| PostsApi.ListingIsPublishedNewestFirst | src/pages/api/posts/index.ts:20-31 | the listed posts are exactly the published ones, newest first |
| PostsApi.ListingPairsEachPostWithItsAuthor | src/pages/api/posts/index.ts:22-29 | each listed post carries its own author's name and email |
| PostsApi.Handle | src/pages/api/posts/index.ts:8-73 | 401 without a session; GET lists (500 when the store fails); POST by a non-admin 403; by an admin one published post by the session user and 201, or 500; other methods 405; only a 201 changes the store |
| UsersApi.PublicViews | src/pages/api/users/index.ts:53-60 | each user without the password, in order |
| UsersApi.Listing | src/pages/api/users/index.ts:49-63 | one entry per user, names ascending |
| UsersApi.ListingCoversEveryUser | src/pages/api/users/index.ts:49-63 | every stored user appears without password, and nothing else appears |
| UsersApi.Handle | src/pages/api/users/index.ts:7-71 | 401 for anyone but an admin; POST: 500 if the store is down, 400 for a taken email, else the hashed-password user is stored and returned without the password, or 500; GET lists by name or 500; other methods 405; email uniqueness kept |
| UsersApi.FreshEmailAndIdAccepted | src/pages/api/users/index.ts:19-38 | past the duplicate check, only an id clash can make the create fail |
| AdminUsersApi.Summaries | src/pages/api/admin/users/index.ts:22-27 | each user in order with only id, name, email and role |
| AdminUsersApi.Listing | src/pages/api/admin/users/index.ts:21-33 | one four-field entry per user, in newest-first order |
| AdminUsersApi.ListingShowsEveryUser | src/pages/api/admin/users/index.ts:21-33 | every stored user is listed |
| AdminUsersApi.ListingIsNewestFirst | src/pages/api/admin/users/index.ts:28-30 | earlier entries belong to users created no earlier than later ones |
| AdminUsersApi.Handle | src/pages/api/admin/users/index.ts:9-62 | 403 for anyone but an admin; GET lists newest first or 500; POST stores the hashed-password user and returns it without the password, any refusal (a taken email included) 400; other methods 405 |
| LogsPage.Label | src/pages/admin/logs.tsx:10-21 | the label of each type reads back as that type |
| LogsPage.LabelsAreDistinct | src/pages/admin/logs.tsx:10-21 | the six labels are pairwise distinct |
| LogsPage.View | src/pages/admin/logs.tsx:53-83 | the record's fields unchanged except `createdAt` as ISO text, joined with its user's name and email and its post's title (absent iff no post) |
| LogsPage.ServerSideProps | src/pages/admin/logs.tsx:41-84 | non-admins are redirected to `/` non-permanently; a store failure is an error; otherwise one entry per record |
| LogsPage.EveryRecordShown | src/pages/admin/logs.tsx:53-83 | every stored record is on the page |
| LogsPage.RecordsNewestFirst | src/pages/admin/logs.tsx:71-73 | entries run from the newest record to the oldest |
| LogsPage.RenderRow | src/pages/admin/logs.tsx:136-153 | the label of the type; blue iff the type name contains `POST`; the name, else the email; the title, else `-`; the address, else `-` |
| LogsPage.Render | src/pages/admin/logs.tsx:134-166 | one row per record in order; "Nenhum log encontrado" iff there are none |
| LogsPage.BlueBadgeForDocumentEvents | src/pages/admin/logs.tsx:137-141 | the type name contains `POST` exactly for the four document events |
| PostsPage.WithAuthorNames | src/pages/posts/index.tsx:84-94 | each post with its own author's name, in order |
| PostsPage.ServerSideProps | src/pages/posts/index.tsx:82-109 | a store failure gives an empty list; otherwise the published posts newest first, one for one |
| PostsPage.ShowsEveryPublishedPost | src/pages/posts/index.tsx:84-94 | every published post is on the page |
| PostsPage.ShowsOnlyPublishedNewestFirst | src/pages/posts/index.tsx:84-94 | only published stored posts appear, newest first |
| PostsPage.Excerpt | src/pages/posts/index.tsx:55 | content of at most 150 characters is shown whole; longer content is cut to its first 150; `...` always follows |
| PostsPage.Render | src/pages/posts/index.tsx:32-77 | one card per post in order; the "new document" link iff the session is `ADMIN`; "Nenhum documento disponível." iff no post |
| ErrorPage.InitialStatusCode | src/pages/_error.tsx:26-29 | the response's code, else the error's (possibly absent), else 404 |
| ErrorPage.Digits | src/pages/_error.tsx:13 | decimal digits, with no leading zero |
| ErrorPage.DigitsRoundTrip | src/pages/_error.tsx:13 | the digits read back as the number |
| ErrorPage.NumberText | src/pages/_error.tsx:13 | the number's text, with a minus sign when negative |
| ErrorPage.Render | src/pages/_error.tsx:12-19 | "Erro N" / "Um erro N ocorreu no servidor" for a code other than absent or 0; otherwise the client wording |
| ErrorPage.HeadingIdentifiesCode | src/pages/_error.tsx:12-15 | different codes give different headings |
| ErrorPage.NothingKnownShowsNotFound | src/pages/_error.tsx:12-27 | with neither a response nor an error the page reads "Erro 404" |
| ErrorPage.ErrorWithoutCodeShowsClientText | src/pages/_error.tsx:17-27 | an error without a code shows the client wording, not 404 |

## Left out

- Store internals:
  - The store's own checks of a request body: missing fields, wrong types, an unknown role value. Every body field is a string here.
  - Column collation: names are ordered by code points.
  - The order of rows with equal sort keys. The model keeps table order; the store may return any.
- A store that fails between two calls of one request. `Reply` is fixed per request, so in `UsersApi.Handle` a reachable duplicate check is followed by a reachable create.
- A session without a `user`. The model's session always carries one.
  - With no `user`, `session.user.role` throws. It is read at src/pages/api/posts/index.ts:41 and src/pages/api/admin/users/index.ts:15.
  - src/pages/api/users/index.ts:10 reads `session.user?.role`, which answers 401 instead.
  - The posts `GET` never reads the user.
- Null user names are modelled as empty strings. Both are falsy for the user cell's fallback.
- PostsPage.Excerpt: lengths are counted in Unicode characters, while `substring` counts UTF-16 code units.
  - Content with characters outside the Basic Multilingual Plane is cut at a different place.
  - The source may also cut a surrogate pair in half, which a Dafny string cannot hold.
- A post's `updatedAt` is set to its creation time; no update of a post is modelled.
- UsersApi.Handle: does not state that the stored password differs from the raw one. `hash` is an arbitrary function here, so bcrypt's one-wayness is not modelled.
- AdminUsersApi.Handle: does not state that the stored password differs from the raw one, for the same reason.
- PostsApi.Handle: says what is answered and written, not which tables are read. The model cannot express that a 401 or 403 reads nothing.
- LogsPage.ServerSideProps: the same holds for the page's redirect.
- The date column of the log page. Its `date-fns` formatting in local time is locale and clock work.
- Rendering is reduced to the texts and decisions listed above. JSX layout and CSS classes are not modelled.
- In the protection layer:
  - the canvas and DOM calls;
  - the 50 ms pattern refresh and the one-second poll schedule (each tick is a method call);
  - the clipboard write on PrintScreen;
  - the injected CSS and its print rule;
  - the console `toString` dev-tools trick;
  - the observer's registration;
  - the canvas pixels' floating-point noise (a parameter).
- The matcher as the framework compiles it: case sensitivity and the extra `/_next/data` handling. The model reads the pattern as a prefix test after the leading `/`.
- Session and token resolution and password checking at sign-in. They are inputs here.
