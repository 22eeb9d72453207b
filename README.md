# Forum REST API: a verified model

A Dafny model of the forum back end: categories, subforums, threads and posts, plus users. It covers:

- the forum request handlers;
- the route validation rules and the order in which the middleware runs;
- the user handlers (register, log in, profile);
- the bearer-token middleware;
- the client's local register/login state;
- the client's error-message formatting.

The database becomes one in-memory table per entity: a map from primary key to row, plus the next key to hand out. A query returns the matching rows in ascending key order. `createdAt` is a store-wide clock that counts up, so "newest first" is descending clock order. Every handler receives the requesting user as an explicit `Option<User>` argument (`req.user`).

Modules, one per file:

- `Wrappers`: `Option`.
- `Strings`: `split(' ')`, `join` and code-point lexicographic order.
- `JsNumbers`: `parseInt`, `parseInt(x) || d` and validator.js `isInt`.
- `Pagination`: page, limit, skip, `Math.ceil` and the returned window.
- `Tables`: ascending key scans over a table.
- `Entities`: the rows.
- `Http`: responses and field errors.
- `Validation`: express-validator chains and the 400 guard.
- `ForumModel`: the table invariants, the ordered queries and the sort by name.
- `ForumController`: class `ForumStore`, one method per handler.
- `ForumRoutes`: the routing table, authentication before validation, and each route's rules.
- `Auth`: `authenticateToken`.
- `UserController`: class `UserStore`.
- `UserRoutes`: the user router.
- `ClientApp`: class `App`.
- `ForumService`: `handleError`.

bcrypt's `hash` and `compare`, jsonwebtoken's `sign` and `verify`, express-validator's `isEmail` and SQL `LIKE '%q%'` are function parameters. The model assumes one fixed behaviour of them: jsonwebtoken's `verify` refuses the empty token, whatever the `verify` parameter says (`Auth.Decide`). Nothing else is assumed about them.

Where the code and its description differ, the model follows the code:

- An integration test expects a non-admin to create a subforum. `createSubforum` refuses that with 403, and the model does the same.
- The forum handlers read `req.user`, but `authenticateToken` sets only `req.userId`, and the forum router is never mounted. The model keeps each handler's logic and passes the requester in as an argument.
- Rows created without a requester have no author. For such a row, `post.author.id` (or `thread.author.id`) throws, and the handler's `catch` turns that into `500 Internal server error`. `UpdatePost`, `DeletePost` and `DeleteThread` state that 500 outright.
- An empty `Authorization` header is falsy but not `null`. It reaches `jwt.verify`, which refuses an empty token, so the answer is 403, not 401.

## Model

| member | source | states |
|---|---|---|
| Strings.Split | backend/src/middleware/auth.ts:6 | `split(' ')` returns at least one piece, and no piece contains the separator |
| Strings.JoinSplit | backend/src/middleware/auth.ts:6 | joining the pieces of a split with the separator gives back the original string |
| Strings.SplitJoin | backend/src/middleware/auth.ts:6 | splitting separator-free pieces joined by the separator gives back exactly those pieces |
| Strings.LexTotal | backend/src/controllers/forumController.ts:173 | `name ASC` order is total |
| Strings.LexTransitive | backend/src/controllers/forumController.ts:173 | `name ASC` order is transitive |
| Strings.LexAntisymmetric | backend/src/controllers/forumController.ts:173 | two names ordered both ways are equal |
| JsNumbers.ParseInt | backend/src/controllers/forumController.ts:18-19 | on text that `isInt` accepts, `parseInt` reads the same number the validator compared |
| JsNumbers.ParseIntSkipsBlank | backend/src/controllers/forumController.ts:18-19 | `parseInt` skips any leading ECMAScript white space or line terminator, U+3000 and U+2028 included |
| JsNumbers.IsInt | backend/src/routes/forumRoutes.ts:23-24 | text that `isInt({min, max})` accepts is read by `parseInt` as a number within those bounds |
| JsNumbers.QueryInt | backend/src/controllers/forumController.ts:18-19 | `parseInt(v) \|\| d` is `d` when the value is absent, `NaN` or 0, and otherwise exactly the number `parseInt` reads |
| JsNumbers.ValidatedPage | backend/src/routes/forumRoutes.ts:23 | once `page` passes `isInt({min: 1})`, the handler's page is that number and is at least 1 |
| JsNumbers.ValidatedLimit | backend/src/routes/forumRoutes.ts:24 | once `limit` passes `isInt({min: 1, max: 100})`, the handler's limit is that number and lies in 1..100 |
| JsNumbers.ParseIntReadsDigitPrefix | backend/src/controllers/forumController.ts:18 | `" 7px"` gives page 7: leading space is skipped and trailing text is ignored |
| JsNumbers.ZeroFallsBack | backend/src/controllers/forumController.ts:18 | page `"0"` falls back to 1 |
| JsNumbers.NonNumericFallsBack | backend/src/controllers/forumController.ts:19 | a non-numeric limit falls back to 10 |
| JsNumbers.NegativePassesThrough | backend/src/controllers/forumController.ts:18 | `"-3"` is not replaced by the default: without the route rule the handler would see page -3 |
| Pagination.AdmissibleBounds | backend/src/controllers/forumController.ts:18-20 | after the route rules pass, page ≥ 1 and 1 ≤ limit ≤ 100; an absent page is 1 and an absent limit is 10 |
| Pagination.TotalPages | backend/src/controllers/forumController.ts:32 | `Math.ceil(total / limit)` is the least page count whose pages hold `total` items |
| Pagination.Skip | backend/src/controllers/forumController.ts:20 | `skip` is a whole number of pages: exactly `page - 1` pages of `limit` items |
| Pagination.Window | backend/src/controllers/forumController.ts:23-27 | `skip`/`take` return the items at positions `[(page-1)*limit, (page-1)*limit + limit)` of the ordered list, cut off at its end |
| Pagination.Paginate | backend/src/controllers/forumController.ts:29-34 | the envelope reports the requested page and the full match count, and its `totalPages` satisfies the ceiling bounds whatever the page holds |
| Pagination.PagesUpToIsPrefix | backend/src/controllers/forumController.ts:20-27 | pages 1..k laid end to end are the first `k*limit` items |
| Pagination.PagesPartition | backend/src/controllers/forumController.ts:20-33 | pages 1..totalPages laid end to end are exactly the ordered list |
| Pagination.PageWithinIff | backend/src/controllers/forumController.ts:20-33 | page `page` is at most `totalPages` if and only if it skips fewer items than the total |
| Pagination.WindowNonEmptyIff | backend/src/controllers/forumController.ts:20-33 | a page holds items if and only if its number is at most `totalPages` |
| Pagination.WindowWithin | backend/src/controllers/forumController.ts:23-27 | every item on a page belongs to the list being paged |
| Pagination.WindowOrdered | backend/src/controllers/forumController.ts:134-139 | a page keeps any order that the whole list is in |
| Pagination.FifteenItemsTenPerPage | backend/src/__tests__/integration/forumRoutes.test.ts:80-97 | 15 items at limit 10: page 1 holds 10, page 2 holds the last 5, and there are 2 pages |
| Tables.Ascending | backend/src/controllers/forumController.ts:23-27 | a table scan returns exactly the keys whose rows match, in strictly increasing order |
| Tables.AscendingCount | backend/src/controllers/forumController.ts:23 | `findAndCount`'s total is the number of matching rows |
| Tables.RowsExact | backend/src/controllers/forumController.ts:23-27 | the rows a scan returns are exactly the stored rows that match |
| Tables.RowsChronological | backend/src/controllers/forumController.ts:138 | when creation stamps grow with the key, a scan lists rows oldest first |
| ForumModel.InsertByName | backend/src/controllers/forumController.ts:173 | inserting into a name-sorted list keeps it sorted and adds exactly that subforum |
| ForumModel.SortByName | backend/src/controllers/forumController.ts:173 | `order: { name: 'ASC' }` returns a permutation of its input sorted by name in code-point order |
| ForumModel.AllCategoriesExact | backend/src/controllers/forumController.ts:23-27 | the category listing holds every category exactly once, and its length is the table size |
| ForumModel.SubforumsOfExact | backend/src/controllers/forumController.ts:24 | a category's `subforums` relation holds exactly the subforums with that category id |
| ForumModel.SubforumsOfCount | backend/src/controllers/forumController.ts:24 | a category's `subforums` relation has one entry per subforum with that category id |
| ForumModel.ThreadsOfExact | backend/src/controllers/forumController.ts:134-139 | a subforum's thread list holds exactly the stored threads of that subforum |
| ForumModel.ThreadsOfNewestFirst | backend/src/controllers/forumController.ts:138 | a subforum's threads have strictly decreasing `createdAt` |
| ForumModel.ThreadsOfCount | backend/src/controllers/forumController.ts:134 | the thread total is the number of threads in that subforum |
| ForumModel.PostsOfExact | backend/src/controllers/forumController.ts:244-250 | a thread's post list holds exactly the stored posts of that thread |
| ForumModel.PostsOfOldestFirst | backend/src/controllers/forumController.ts:249 | a thread's posts have strictly increasing `createdAt` |
| ForumModel.PostsOfCount | backend/src/controllers/forumController.ts:244 | the post total is the number of posts in that thread |
| ForumModel.SubforumsByNameExact | backend/src/controllers/forumController.ts:169-174 | the name-ordered list holds exactly the category's subforums, and its length is their count |
| ForumModel.SearchListsExact | backend/src/controllers/forumController.ts:356-370 | the search lists hold exactly the threads whose title matches and the posts whose content matches |
| ForumModel.SearchListsNewestFirst | backend/src/controllers/forumController.ts:360-368 | both search lists are newest first |
| ForumController.WithSubforums | backend/src/controllers/forumController.ts:24 | one entry per category, in order; each entry holds exactly the stored subforums whose category id is that category's |
| ForumController.SearchPageNonEmptyIff | backend/src/controllers/forumController.ts:356-377 | a search page shows something if and only if its number is at most the page count of the longer list, which can be below the reported `totalPages` |
| ForumController.SearchLastPageCanBeEmpty | backend/src/controllers/forumController.ts:376 | 10 matching threads and 10 matching posts at limit 10 report 2 pages, yet page 2 is empty in both lists |
| ForumController.ForumStore.constructor | backend/src/migration/1685000000003-CreateForumTables.ts:7-14 | the store starts with four empty tables that satisfy the foreign-key invariant every handler keeps |
| ForumController.ForumStore.ListCategories | backend/src/controllers/forumController.ts:16-39 | 200 with one page of stored categories; each holds exactly the stored subforums of that category; `totalItems` is the number of categories |
| ForumController.ForumStore.GetCategory | backend/src/controllers/forumController.ts:41-53 | 404 "Category not found" for an absent id; otherwise the category with exactly its subforums |
| ForumController.ForumStore.GetSubforum | backend/src/controllers/forumController.ts:118-152 | 404 "Subforum not found"; otherwise one page of exactly that subforum's threads, newest first, with `totalItems` their count |
| ForumController.ForumStore.GetSubforumsByCategory | backend/src/controllers/forumController.ts:154-186 | 404 "Category not found"; otherwise one page of exactly that category's subforums, sorted by name in code-point order, with `totalItems` their count |
| ForumController.ForumStore.GetThread | backend/src/controllers/forumController.ts:228-263 | 404 "Thread not found"; otherwise one page of exactly that thread's posts, oldest first, with `totalItems` their count |
| ForumController.ForumStore.SearchForum | backend/src/controllers/forumController.ts:346-383 | 200 with matching threads and posts only, each list newest first and paged with the same skip and limit; the totals are summed |
| ForumController.ForumStore.CreateCategory | backend/src/controllers/forumController.ts:55-81 | 400 with the errors, else 403 unless the requester is an admin, else exactly one new category and 201; the tables stay well-formed |
| ForumController.ForumStore.CreateSubforum | backend/src/controllers/forumController.ts:83-116 | 400, else 403 for a non-admin, else 404 for a missing category, else exactly one new subforum and 201 |
| ForumController.ForumStore.CreateThread | backend/src/controllers/forumController.ts:188-226 | 400, else 404 "Subforum not found" with nothing changed, else exactly one new thread and one new post, with the same content and the same author, stamped after the thread; 201 with the thread |
| ForumController.ForumStore.CreatePost | backend/src/controllers/forumController.ts:265-293 | 400, else 404 "Thread not found", else exactly one new post by the requester and 201 |
| ForumController.ForumStore.UpdatePost | backend/src/controllers/forumController.ts:295-322 | 400, then 404, then 403 unless the requester wrote the post (admins get no exception); otherwise only that post's content changes |
| ForumController.ForumStore.DeletePost | backend/src/controllers/forumController.ts:324-344 | 404 before 403; only the post's author may delete, and only that post is removed |
| ForumController.ForumStore.DeleteThread | backend/src/controllers/forumController.ts:385-414 | 404, then 403 unless the requester is the author or an admin; on success the thread and exactly its posts are removed, and other posts are unchanged |
| Validation.RuleErrors | backend/src/routes/forumRoutes.ts:50 | every validator in a chain runs; the errors it reports carry the chain's location and field |
| Validation.Guard | backend/src/routes/userRoutes.ts:19-25 | the request goes forward if and only if no errors were collected; otherwise the answer is 400 with those errors |
| Validation.RuleErrorsEmptyIff | backend/src/routes/forumRoutes.ts:50 | a chain reports nothing if and only if all its validators pass; each failing validator reports its own message |
| Validation.ErrorsEmptyIff | backend/src/routes/forumRoutes.ts:49-54 | a route's chains report nothing if and only if every chain accepts |
| Validation.ErrorsReport | backend/src/routes/forumRoutes.ts:50 | the error of every failing validator appears in `errors.array()` |
| ForumRoutes.Admit | backend/src/routes/forumRoutes.ts:34-90 | only protected routes deny; an admitted request carries a user id exactly on protected routes, and that id is the one the token verified to |
| ForumRoutes.AdmitIff | backend/src/routes/forumRoutes.ts:49-54 | authentication is decided before validation; a request reaches the handler if and only if both pass; a rejection carries the non-empty error list |
| ForumRoutes.MissingTokenBeatsValidation | backend/src/routes/forumRoutes.ts:34 | every mutating route answers 401 to a request with no Authorization header, whatever its body |
| ForumRoutes.AllWritesAuthenticated | backend/src/routes/forumRoutes.ts:34-84 | a route runs `authenticateToken` if and only if it is not a GET |
| ForumRoutes.UnroutedHandlers | backend/src/routes/forumRoutes.ts:4-16 | no route leads to `createCategory` or `getSubforumsByCategory` |
| ForumRoutes.ListRulesIff | backend/src/routes/forumRoutes.ts:23-24 | the page and limit rules pass if and only if the query is one the list handlers accept |
| ForumRoutes.ListRoutesAdmissible | backend/src/routes/forumRoutes.ts:41-46 | a list route hands its handler only an acceptable page and limit |
| ForumRoutes.IdRuleIff | backend/src/routes/forumRoutes.ts:29 | an `:id` parameter passes if and only if it is integer text, and the handler's `parseInt` then reads that integer |
| ForumRoutes.ThreadRulesIff | backend/src/routes/forumRoutes.ts:50-52 | a thread passes if and only if its title has 3..200 characters, its content 10..10000, and its subforumId is an integer |
| ForumRoutes.EmptyTitleRejected | backend/src/__tests__/integration/forumRoutes.test.ts:352-364 | an empty title gives 400, with both the "required" and the length message for `title` |
| ForumRoutes.PostRulesIff | backend/src/routes/forumRoutes.ts:70-71 | a post passes if and only if its content has 1..10000 characters and its threadId is an integer |
| ForumRoutes.UpdatePostRulesIff | backend/src/routes/forumRoutes.ts:76-77 | an edit passes if and only if the id is an integer and the content has 1..10000 characters |
| ForumRoutes.SubforumRulesIff | backend/src/routes/forumRoutes.ts:35-37 | a subforum passes if and only if its name has 3..100 characters, its description 1..500, and its categoryId is an integer |
| ForumRoutes.SearchRulesIff | backend/src/routes/forumRoutes.ts:88-90 | a search passes if and only if `q` is non-empty and the page and limit are acceptable |
| Auth.BearerToken | backend/src/middleware/auth.ts:5-6 | no header gives no token; the empty header gives the empty token; any other header gives its second space-separated word, if it has one |
| Auth.Decide | backend/src/middleware/auth.ts:8-13 | 401 if and only if there is no token; the request is accepted if and only if the token is non-empty and verifies, and then the user id is the payload's |
| Auth.AuthenticateToken | backend/src/middleware/auth.ts:4-16 | on acceptance, sets `userId` and calls `next` exactly once; otherwise sends 401/403 and neither sets `userId` nor calls `next` |
| Auth.BearerRoundTrip | backend/src/middleware/auth.ts:6 | `"Bearer " + t` yields `t` for any token `t` without a space |
| Auth.SignedTokenAuthenticates | backend/src/middleware/auth.ts:10-14 | a token the verifier accepts, sent as a bearer token, authenticates its user |
| Auth.SingleWordUnauthorized | backend/src/middleware/auth.ts:6-8 | a non-empty header with no space gives 401 whatever the verifier |
| Auth.TrailingSpaceForbidden | backend/src/middleware/auth.ts:6-11 | `"Bearer "` gives the empty token, which is not null, so the answer is 403 |
| Auth.EmptyHeaderForbidden | backend/src/middleware/auth.ts:6-11 | an empty header gives 403, not 401 |
| UserController.FindByUsername | backend/src/controllers/userController.ts:43 | finds a user if and only if some user has that name, and what it finds has that name |
| UserController.StripHidesOnlyHash | backend/src/controllers/userController.ts:74-76 | two users have the same profile if and only if they agree on every field except the password hash |
| UserController.FindStoredUser | backend/src/controllers/userController.ts:43 | because usernames are unique, a lookup by name finds exactly the stored user |
| UserController.UserStore.constructor | backend/src/entity/User.ts:10-20 | the user table starts empty and well-formed |
| UserController.UserStore.RegisterUser | backend/src/controllers/userController.ts:7-35 | 400 "Username or email already exists" with nothing changed if the name or the email is taken; otherwise exactly one new non-admin user holding `hash(password)` and 201; names and emails stay unique |
| UserController.UserStore.LoginUser | backend/src/controllers/userController.ts:37-62 | the only failure is 400 "Invalid username or password", for an unknown name and for a wrong password alike; success if and only if `compare` accepts, with a token signed over the user's id |
| UserController.UserStore.GetUserInfo | backend/src/controllers/userController.ts:64-81 | 404 "User not found" for an unknown id; otherwise the user without the hash |
| UserRoutes.RegistrationRulesIff | backend/src/routes/userRoutes.ts:8-12 | registration passes if and only if the username has at least 3 characters, the email passes the check, and the password has at least 6 characters |
| UserRoutes.LoginRulesIff | backend/src/routes/userRoutes.ts:14-17 | login passes if and only if both username and password are non-empty |
| UserRoutes.Register | backend/src/routes/userRoutes.ts:27 | a rule failure answers 400 and never reaches the controller or changes the table; otherwise the controller's outcome |
| UserRoutes.Login | backend/src/routes/userRoutes.ts:28 | a rule failure answers 400; otherwise the controller's single failure message or the signed token |
| UserRoutes.Me | backend/src/routes/userRoutes.ts:29 | 401/403 from the middleware, otherwise the profile of the token's user or 404 |
| UserRoutes.RegisterLogInFetchProfile | backend/src/__tests__/integration/userRoutes.test.ts:85-111 | registering, logging in with the same password and calling `/me` with the token returns the new user's profile, without admin rights |
| ClientApp.FindUser | src/App.tsx:28 | finds a user if and only if some stored user has both that name and that password |
| ClientApp.RegisterOnceDistinct | src/App.tsx:18-22 | one registration keeps usernames pairwise distinct |
| ClientApp.RegisteredDistinct | src/App.tsx:18-22 | after any sequence of registrations, usernames are pairwise distinct |
| ClientApp.RegisteredExtends | src/App.tsx:22 | registration only appends: earlier users keep their place |
| ClientApp.RegisterThenFind | src/App.tsx:22-28 | a newly registered name and password are found by the login lookup |
| ClientApp.App.constructor | src/App.tsx:12-15 | welcome screen, no users, no current user, no login message |
| ClientApp.App.HandleRegister | src/App.tsx:17-25 | a taken username changes nothing and alerts; otherwise it appends exactly `{username, password}`, shows the welcome screen, and usernames stay distinct |
| ClientApp.App.HandleLogin | src/App.tsx:27-35 | success if and only if the name/password pair is stored: sets the current user and the welcome message; otherwise changes nothing and alerts |
| ClientApp.App.HandleLogout | src/App.tsx:37-40 | clears the current user and the message, and keeps the users and the screen |
| ClientApp.App.ShowRegisterScreen | src/App.tsx:47 | switches to the registration screen and changes nothing else |
| ForumService.ErrorsTakePrecedence | src/services/forumService.ts:13-17 | when `errors` is present, `message` is ignored and the thrown text is built from the errors |
| ForumService.EmptyErrorsEmptyMessage | src/services/forumService.ts:13-15 | an empty `errors` array throws the empty string |
| ForumService.MessageOrDefault | src/services/forumService.ts:17 | without `errors`, the message is thrown, or "An error occurred" when it is missing or empty |
| ForumService.HandleError | src/services/forumService.ts:10-21 | the original error is rethrown if and only if there is no response; otherwise a new error is raised |
| ForumService.ErrorsMessage | src/services/forumService.ts:14 | no errors give the empty text; one error gives its values joined by ": " |
| ForumService.ErrorsMessageSnoc | src/services/forumService.ts:14 | each further error adds ", " and its values joined by ": ", so the message lists every error in order |
| Strings.JoinSnoc | src/services/forumService.ts:14 | `join` of one more piece appends the separator and that piece |
| ForumService.TwoErrorsOneLine | src/services/forumService.ts:14 | values are joined by ": " and errors by ", " |

## Left out

- Database and ORM: TypeORM repositories, relation loading, migrations and the data source are replaced by in-memory tables.
- Timestamps: `createdAt` is a clock that counts up, not wall-clock time; `updatedAt` and the users' `created_at`/`updated_at` are not modelled, so `UserInfo` has no timestamps.
- bcrypt salting and cost, JWT secrets and the one-hour expiry: hashing, comparing, signing and verifying are parameters.
- SQL `LIKE`: collation and the `%`/`_` wildcards inside `q` are left to the `Matcher` parameter.
- `isLength` counts characters as sequence length; validator.js's special counting of surrogate pairs and variation selectors is not modelled.
- `isEmail` is a parameter.
- express-validator error objects keep only location, field and message; `type` and `value` are dropped.
- Request fields are text. JSON numbers, arrays and booleans in a body, and repeated query keys that Express turns into arrays, are not modelled.
- JsNumbers.ParseInt: does not model `parseInt`'s hexadecimal `0x` prefix. The route rules reject such text before any handler runs.
- JsNumbers.ParseInt: reads an exact integer, while `parseInt` returns a double that rounds integers above 2^53. Page text "9007199254740993" passes `isInt({min: 1})` (backend/src/routes/forumRoutes.ts:23); the handler then reports `currentPage` 9007199254740992, whereas `JsNumbers.QueryInt` and `JsNumbers.ValidatedPage` give 9007199254740993.
- Auth.Decide: a verifier answers with a user id or a refusal. A token that verifies but whose payload has no `id` is not expressible; backend/src/middleware/auth.ts:13 would then set `userId` to undefined and still call `next()`.
- ForumService.HandleError: a response whose `data` is null makes `error.response.data.errors` (src/services/forumService.ts:13) throw a TypeError instead of the intended error. The model's response always carries a body.
- Path parameters are handed to the handlers as integers, because the route rules require integer text first. Without those rules, `parseInt` on a non-numeric id would give `NaN`; that case is not modelled.
- ForumModel.SortByName: `ORDER BY name ASC` is modelled as code-point lexicographic order. That is SQLite's BINARY collation, which the tests use (backend/src/__tests__/setup.ts:12). The production database is Postgres (backend/src/index.ts:26), which sorts by the database's locale collation; under en_US "apple" sorts before "Banana", while the model puts "Banana" first.
- ForumController.ForumStore.GetSubforumsByCategory: the page is in code-point name order, as `ForumModel.SortByName` states, not in the production database's locale collation.
- ForumController.ForumStore.ListCategories: categories, and the subforums of a category, come out in ascending key order. The source gives no order for them.
- The read handlers require the route rules to have passed (page ≥ 1 and limit in 1..100). A negative or zero `skip` never reaches the database.
- Responses carry author ids, not the loaded `author` relations. Those relations include every column of the user row, and they are not modelled. As a consequence the model does not show that getThread and searchForum (backend/src/controllers/forumController.ts:237, 246, 361, 369) send every author's `password_hash` to the client, although a user's password hash is meant never to leave the server.
- Logging, and the blanket `catch` that answers 500 on infrastructure failure (including "Error registering user" and "Error logging in"), are not modelled. The one 500 kept is the authorless-row case described above.
- Concurrency: the gap between an existence check and the later save, and createThread's two separate saves, are not modelled.
- The `validateRequest` middleware file is not part of this model. The forum routes use the same guard as `handleValidationErrors`.
- The broken wiring is not modelled: `req.user` is never set, and the forum router is not mounted. The requester is an argument instead.
- React rendering, components and themes are not modelled. Alerts are returned as their text. The axios calls in the client service are not modelled.
- `sendStatus` bodies are the standard status texts "Unauthorized" and "Forbidden".
