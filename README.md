# pog-blog: request decisions and page state rules

This project models the decision logic of the pog-blog blogging application.
On the server side it covers:
- the Express session middleware;
- the `isAuthenticated` guard;
- the `/users/signup`, `/users/login` and `/users/me` routes, over a `users` collection with its schema defaults and unique keys.

On the client side it covers:
- the signup form's field rules;
- the search page's URL state, effect, tab and "No results found" rules, and its API query string;
- the header's visibility rules;
- the category-choice page;
- the editor page's Publish button, success navigation and thumbnail dialog;
- the theme provider.

Each route and middleware has a pure outcome function (or decision function) that specifies it. It is implemented as a method over an `Exchange`, which stands for Express's `res` (locals, `Set-Cookie` headers, responses, `next` calls), and a `Database` class. The method takes the same early returns as the route. Pages whose state React updates step by step are classes whose methods are the event handlers and effects. The pure checks are functions with lemmas about them.

Two JavaScript built-ins are modelled because the properties depend on them:
- `split`/`join` with a one-character separator, and `length` in UTF-16 code units (`JsString`);
- `encodeURIComponent`/`decodeURIComponent` over UTF-8 (`UriEncoding`). The model proves that decoding undoes encoding for every string.

Modules and their files:
- `Wrappers` (`wrappers.dfy`), `JsString` (`js_string.dfy`), `UriEncoding` (`uri_encoding.dfy`), `Http` (`http.dfy`);
- `SessionMiddleware` (`session_middleware.dfy`), `IsAuthenticated` (`is_authenticated.dfy`), `UserModel` (`user_model.dfy`), `UserRoutes` (`user_routes.dfy`);
- `Utils` (`utils.dfy`), `SignupForm` (`signup_form.dfy`), `SearchPage` (`search_page.dfy`), `HeaderLayout` (`header_layout.dfy`), `ChooseCategories` (`choose_categories.dfy`), `WritePage` (`write_page.dfy`), `ThemeProvider` (`theme_provider.dfy`).

## Model

| member | source | states |
|---|---|---|
| SessionMiddleware.Decide | server/index.ts:16-38 | At most one `Set-Cookie` is added. No session id: no cookie, and both locals are null. Otherwise both locals come from `validateSession`. The blank cookie is sent exactly when there is no session. A session cookie is sent exactly when the session is fresh, and it carries that session's id. |
| SessionMiddleware.InvalidSessionCleared | server/index.ts:32-36 | An invalid session adds the blank cookie and leaves both locals null. |
| SessionMiddleware.ValidSessionKept | server/index.ts:26-35 | A valid session that is not fresh adds no cookie and is stored in the locals. |
| SessionMiddleware.Run | server/index.ts:16-38 | The middleware appends the decided cookies and sets the locals as decided. It calls `next` exactly once and writes no response. |
| IsAuthenticated.Decide | server/middleware/is-authenticated.ts:9-12 | The request passes exactly when a session is attached. Otherwise the answer is 401 with `{ message: "Unauthorized" }`. |
| IsAuthenticated.Guard | server/middleware/is-authenticated.ts:9-12 | Either `next` is called once and nothing is written, or the 401 is written and `next` is not called. |
| Http.Exchange.Send | server/middleware/is-authenticated.ts:12 | Writing a response appends it and changes nothing else. |
| Http.Exchange.AppendCookie | server/index.ts:27-33 | Appending a `Set-Cookie` header adds that cookie and changes nothing else. |
| Http.Exchange.Next | server/index.ts:22 | Calling `next` is counted once and changes nothing else. |
| UserModel.NewUser | server/models/UserModel.ts:28-37 | A created document gets the default biography and `verified == false`, and keeps the given fields. |
| UserModel.FindOne | server/routes/userRoutes.ts:76 | `findOne` returns a stored document that matches the filter. It returns nothing exactly when no document matches. |
| UserModel.AppendValid | server/models/UserModel.ts:7-23 | Adding an accepted document whose email is new keeps the required fields present and ids, emails and usernames distinct. |
| UserModel.FindOneUnique | server/models/UserModel.ts:19-23 | In a valid collection, a lookup by key finds the only document with that key. |
| UserRoutes.PasswordRule | server/routes/userRoutes.ts:30-36 | A password is accepted exactly when it is a string of at least 6 UTF-16 code units. |
| UserRoutes.PasswordBoundary | server/routes/userRoutes.ts:10 | `MIN_PASSWORD_LENGTH` is 6: "abcde" is refused and "abcdef" accepted. |
| UserRoutes.SignupOutcome | server/routes/userRoutes.ts:13-54 | The answer is 200, 400 or 500. A user is created exactly on 200. Then the email was not already taken, the collection accepts the document and it has the new id. |
| UserRoutes.SignupExistingEmail | server/routes/userRoutes.ts:20-24 | An existing email gets 400 "Email already exists" and creates nothing, whatever the format and password. |
| UserRoutes.SignupInvalidEmail | server/routes/userRoutes.ts:26-28 | A new email that is missing, not a string or ill-formed gets 400 "Invalid email" and creates nothing. |
| UserRoutes.SignupCreates | server/routes/userRoutes.ts:38-53 | A user is created exactly when every check passes and the store accepts the document. That case, and only that case, answers 200 "User created!". A store failure answers 500 "Server error". |
| UserRoutes.SignupCreatedUser | server/routes/userRoutes.ts:38-48 | The created user has the new id, the submitted valid email, the hash of the password, the default picture and biography, and is unverified. Its username is the submitted one, stored unchecked. Its email was not in use. |
| UserRoutes.SignupUsernameUnchecked | server/routes/userRoutes.ts:14-36 | No check looks at the username: two requests that differ only in their username get the same refusal. |
| UserRoutes.SignupPreservesValid | server/routes/userRoutes.ts:20-48 | Signup keeps the collection's keys distinct and its required fields present. |
| UserRoutes.LoginOutcome | server/routes/userRoutes.ts:56-99 | The answer is 200, 400 or 500. A session is created exactly on 200. Then no session was attached, no store fault occurred, and the session has the new id and is fresh. |
| UserRoutes.LoginAlreadyLoggedIn | server/routes/userRoutes.ts:57-59 | A request with a session gets 400 "Already Logged in!" before its body is read. |
| UserRoutes.LoginOrder | server/routes/userRoutes.ts:63-86 | The refusals come in order: invalid email, invalid password, "User does not exist", "Invalid email or password". |
| UserRoutes.LoginSucceeds | server/routes/userRoutes.ts:88-95 | A session is created exactly on the 200 answer. It is created for a stored user with the submitted email whose hash verifies the password, and it has the new session id. |
| UserRoutes.LoginFindsOwner | server/routes/userRoutes.ts:76-95 | In a valid collection, the right credentials log in the user registered with that email. |
| UserRoutes.Profile | server/routes/userRoutes.ts:106-112 | Without a user the object is empty. With one it has exactly the keys `name`, `email`, `profilePicture`, `biography` and `id`, with `name` the username and `id` the `_id`. |
| UserRoutes.MeOutcome | server/routes/userRoutes.ts:101-116 | The answer is 200, 401 or 500. It is 200 exactly when a session is attached and the lookup does not fail. |
| UserRoutes.MeProfile | server/routes/userRoutes.ts:101-116 | The answer is 401 exactly when there is no session. A found user's profile maps `name` to the username and `id` to `_id`, alongside email, picture and biography. |
| UserRoutes.Database.Create | server/routes/userRoutes.ts:41-52 | The document is appended exactly when the store does not fail and accepts it. Otherwise the collection is unchanged. |
| UserRoutes.Signup | server/routes/userRoutes.ts:13-54 | The handler writes exactly the response `SignupOutcome` decides and adds exactly the user it creates. Sessions, locals and cookies are untouched. |
| UserRoutes.Login | server/routes/userRoutes.ts:56-99 | The handler writes the decided response. On success alone it stores the new session and appends its cookie. Users are untouched. |
| UserRoutes.Me | server/routes/userRoutes.ts:101-117 | The guard and the handler together write exactly one response, the one `MeOutcome` decides. `next` is called once exactly when a session is attached. |
| JsString.Split | client/src/pages/search.tsx:42 | `split` gives one piece more than there are separators, and no piece holds the separator. |
| JsString.Count | client/src/pages/search.tsx:42 | A character occurs at most as often as the string is long. |
| JsString.Join | client/src/pages/search.tsx:92 | The joined string is at least as long as any piece, and has room for a separator between each two pieces. |
| JsString.Length | server/routes/userRoutes.ts:33 | `length` lies between the number of characters and twice that. |
| JsString.LengthBmp | client/src/pages/signup.tsx:60-63 | For text in the Basic Multilingual Plane, `length` is the number of characters. |
| JsString.SplitJoin | client/src/pages/search.tsx:92 | Joining a non-empty list of separator-free pieces and splitting again gives the list back. |
| JsString.JoinSplit | client/src/pages/search.tsx:42 | Splitting any string and joining again gives the string back. |
| UriEncoding.Encode | client/src/pages/write.tsx:125 | `encodeURIComponent` output holds only unreserved characters and `%`. |
| UriEncoding.DecodeEncode | client/src/pages/write.tsx:125 | `decodeURIComponent(encodeURIComponent(s)) == s` for every string. |
| UriEncoding.Decode | client/src/components/layouts/header/HeaderLayout.tsx:14 | `decodeURIComponent`, as the router applies it to path parameters, never lengthens its input. |
| UriEncoding.EscapedExcludes | client/src/pages/write.tsx:125 | An encoding never holds `/`, `&`, `=` or any other reserved character. |
| UriEncoding.EncodeUnreserved | client/src/pages/write.tsx:125 | Text made of unreserved characters is its own encoding. |
| Utils.CategoriesCommaFree | client/src/lib/utils.ts:39-77 | There are 37 categories, each non-empty and free of commas. |
| Utils.CategoryWithAmpersand | client/src/lib/utils.ts:43 | "Food & Cooking" is a category and holds `&`. |
| SignupForm.UsernameAccepted | client/src/pages/signup.tsx:59-80 | A username passes exactly when it has at least 3 characters, is not a reserved name and holds no disallowed character. |
| SignupForm.UsernameMessages | client/src/pages/signup.tsx:59-77 | Messages come in rule order. A reserved name is reported as such before the character check. A disallowed character in a long enough, non-reserved name is reported. |
| SignupForm.ReservedNamesCaseSensitive | client/src/pages/signup.tsx:21 | The reserved-name match is exact: "blogs" is refused and "Blogs" passes. |
| SignupForm.DisallowedCharacterRefused | client/src/pages/signup.tsx:71-77 | A username with any character from the URL deny-list is refused. |
| SignupForm.PasswordAccepted | client/src/pages/signup.tsx:116-123 | A password passes exactly when it has at least 6 code units. A shorter non-empty one gets the length message. |
| SignupForm.UsernameError | client/src/pages/signup.tsx:59-80 | An empty username gets "This field is required!". An accepted one has at least 3 characters and is not reserved. |
| SignupForm.EmailError | client/src/pages/signup.tsx:94-101 | The email passes exactly when it is non-empty and matches the pattern. Otherwise the message is the required or the invalid-email one. |
| SignupForm.PasswordError | client/src/pages/signup.tsx:116-123 | The password passes exactly when it has at least 6 code units. Otherwise the message is the required or the too-short one. |
| SignupForm.Submit | client/src/pages/signup.tsx:41-55 | Only the form itself is posted, and only when valid. The page navigates only after a post the server accepted, and then to "/otp". |
| SignupForm.SubmitNavigates | client/src/pages/signup.tsx:190-196 | Only a valid form is posted. The page goes to "/otp" (replacing the history entry, carrying the email) exactly when the form is valid and the server accepts it. |
| SearchPage.ParseCategories | client/src/pages/search.tsx:40-44 | A missing or empty `categories` parameter gives no categories. Otherwise the categories are comma-free pieces that join with "," back to exactly the value. |
| SearchPage.ParseType | client/src/pages/search.tsx:45-47 | The type is never empty. A given type is taken as it is, and a missing or empty one is "most_relevant". |
| SearchPage.Param | client/src/pages/search.tsx:35-46 | The value read for a key is empty exactly when the key is missing or its value is empty. |
| SearchPage.SyncedParams | client/src/pages/search.tsx:89-95 | `q` is written exactly when non-empty, `categories` exactly when some are chosen, `type` exactly when non-empty. No other key is written. |
| SearchPage.SyncedParamsKeys | client/src/pages/search.tsx:89-95 | `q` is written only when non-empty, `categories` only when some are chosen, and `type` always. No other key is written. |
| SearchPage.SyncedParamsRoundTrip | client/src/pages/search.tsx:89-95 | Reloading from the written URL gives back the same query, categories and type, for comma-free categories. |
| SearchPage.CategoriesRoundTrip | client/src/pages/search.tsx:40-44 | Any selection drawn from `CATEGORIES` is read back unchanged from the URL the effect writes. |
| SearchPage.EffectSettles | client/src/pages/search.tsx:97-99 | The effect's forced type is a fixed point. When the "Most Relevant" tab is disabled, the effect has moved to "newest" and the query is enabled. |
| SearchPage.QueryEnabled | client/src/pages/search.tsx:86 | The query runs exactly when the synced URL holds more than the type. |
| SearchPage.MostRelevantDisabled | client/src/pages/search.tsx:113 | A disabled "Most Relevant" tab implies the query runs and that no `q` is written. |
| SearchPage.NextType | client/src/pages/search.tsx:97-99 | The effect either keeps the type or forces "newest". It keeps the type when text is typed or no category is chosen. It forces only when the query runs. |
| SearchPage.NoResultsShown | client/src/pages/search.tsx:154-160 | The message implies typed text and a first page without results. |
| SearchPage.NoResultsNeedsInput | client/src/pages/search.tsx:154-160 | No message appears without typed text, while typing, loading or failed, or when the first page has results. It does appear for typed text with no pages. |
| SearchPage.SearchPage.constructor | client/src/pages/search.tsx:35-47 | The initial state is read from the URL, and the type is set. |
| SearchPage.SearchPage.HandleInputChange | client/src/pages/search.tsx:57-61 | The input shows the text and the page is typing. The query is unchanged. |
| SearchPage.SearchPage.DebouncedSetQuery | client/src/pages/search.tsx:49-55 | The query takes the text and typing ends. |
| SearchPage.SearchPage.SetCategories | client/src/pages/search.tsx:109 | Only the categories change. |
| SearchPage.SearchPage.ClickTab | client/src/pages/search.tsx:112-133 | A tab sets its type, except that the disabled "Most Relevant" tab changes nothing. |
| SearchPage.SearchPage.SyncEffect | client/src/pages/search.tsx:89-100 | The URL gets the synced parameters, and the type becomes the effect's next type. |
| SearchPage.TypeAndSettle | client/src/pages/search.tsx:49-61 | After typing, the debounce and the effect settling, the URL holds exactly the page's query, categories and type. |
| SearchPage.QueryAsWritten | client/src/pages/search.tsx:76-78 | The request as written holds at least the three `&` between its four parameters. |
| SearchPage.QueryAsWrittenSplits | client/src/pages/search.tsx:76-78 | As written, a category with `&` makes a server read more than four parameters. |
| SearchPage.QueryAsWrittenPlain | client/src/pages/search.tsx:76-78 | As written, the request still reads back correctly when no query, type or category holds `&`, `=`, `%`, `#` or `+`. |
| SearchPage.FoodAndCookingCut | client/src/pages/search.tsx:76-78 | Choosing "Food & Cooking" alone sends a query read as more than four parameters. |
| SearchPage.EncodedQueryRoundTrip | client/src/pages/search.tsx:76-78 | With encoded values, a server reads back exactly the parameters sent. |
| SearchPage.Query | client/src/pages/search.tsx:76-78 | The corrected request holds exactly three `&`, one between each two of its four parameters. |
| SearchPage.ParseQuery | client/src/pages/search.tsx:76-78 | A server reads one parameter more than there are `&` in the query string. |
| SearchPage.QueryRoundTrip | client/src/pages/search.tsx:76-78 | The corrected request reads back as the page's query, type, joined categories and page number. |
| SearchPage.FoodAndCookingKept | client/src/pages/search.tsx:76-78 | The corrected request carries "Food & Cooking" intact as the third of four parameters. |
| HeaderLayout.SearchVisibility | client/src/components/layouts/header/HeaderLayout.tsx:20-29 | Search is hidden on "/login", "/signup" and "/choose-categories". On "/" it is shown only to a user. Everywhere else it is shown. |
| HeaderLayout.PublishSlots | client/src/components/layouts/header/HeaderLayout.tsx:57-69 | At most one publish/options pair renders, exactly on "/write" and on edit routes. The Write link shows exactly for a user where no pair renders. |
| HeaderLayout.LoginButton | client/src/components/layouts/header/HeaderLayout.tsx:52 | The Login button shows exactly without a user and off "/login", so never together with the avatar. |
| HeaderLayout.EditLink | client/src/components/layouts/header/HeaderLayout.tsx:14-16 | The edit-link slot renders exactly when both `username` and `title` are non-empty. |
| HeaderLayout.Render | client/src/components/layouts/header/HeaderLayout.tsx:31-87 | The avatar shows exactly for a user. The Login button never shows with the avatar or the Write link. At most one publish pair renders, and none where the Write link shows. |
| ChooseCategories.GuardOrder | client/src/pages/choose-categories.tsx:17-27 | No user goes to "/login" first. The page shows exactly to a user without categories. Any other user goes to "/". |
| ChooseCategories.PageGuard | client/src/pages/choose-categories.tsx:17-27 | The page shows exactly to a user without categories. The visitor goes to "/login" exactly when no user is signed in. |
| ChooseCategories.SubmitEnabled | client/src/pages/choose-categories.tsx:38 | The button is enabled only with at least 3 categories and no request pending. |
| ChooseCategories.ChosenBound | client/src/pages/choose-categories.tsx:50-53 | Distinct choices from `CATEGORIES` never outnumber `CATEGORIES`. |
| ChooseCategories.CategoryChooser.constructor | client/src/pages/choose-categories.tsx:13 | The selection starts empty, with nothing sent or pending. |
| ChooseCategories.CategoryChooser.Choose | client/src/pages/choose-categories.tsx:50-53 | A choice appends that category unless it is already chosen. Earlier entries keep their order. The list stays duplicate-free and drawn from `CATEGORIES`. |
| ChooseCategories.CategoryChooser.Submit | client/src/pages/choose-categories.tsx:31-38 | A request is sent only with at least 3 categories and none pending. A disabled button changes nothing. |
| ChooseCategories.CategoryChooser.Settle | client/src/pages/choose-categories.tsx:83-87 | A pending request that succeeds navigates to "/". The request is no longer pending. |
| ChooseCategories.CategoryChooser.Bounded | client/src/pages/choose-categories.tsx:49-60 | The selection never outgrows `CATEGORIES`. |
| WritePage.PublishChecks | client/src/pages/write.tsx:167-175 | A request goes out exactly when no toast is raised, which is exactly when all four fields are present. Each missing field raises its own toast, and a missing title's toast comes first. |
| WritePage.Publish | client/src/pages/write.tsx:167-185 | A request is made exactly when no toast is raised, and there are at most four toasts. |
| WritePage.ToastOrder | client/src/pages/write.tsx:167-175 | The toasts come in strictly increasing form order: title, description, content, categories. |
| WritePage.EmptyEditorRefused | client/src/pages/write.tsx:168-171 | An empty editor counts as missing content. |
| WritePage.PublishRequest | client/src/pages/write.tsx:177-183 | The request carries the fields, the editor's HTML and the thumbnail's `src`, or "" without one. |
| WritePage.SuccessPathSegments | client/src/pages/write.tsx:119-127 | The success path has exactly two segments, and they decode to the username and the title. |
| WritePage.SuccessPath | client/src/pages/write.tsx:125 | The success path is absolute: it starts with `/` and has at least two characters. |
| WritePage.Publisher.constructor | client/src/pages/write.tsx:160 | The mutation starts idle, with nothing posted and no navigation. |
| WritePage.Publisher.Click | client/src/pages/write.tsx:167-185 | A disabled button (pending or succeeded) ignores the click. Otherwise the click raises the toasts, and any request it makes is posted and pending. |
| WritePage.Publisher.Settle | client/src/pages/write.tsx:119-137 | Success navigates to the post of the last request. Failure re-enables the button. |
| WritePage.PublishOnce | client/src/pages/write.tsx:185 | After a success, clicking posts nothing more. |
| WritePage.ThumbnailDialog.constructor | client/src/pages/write.tsx:751-753 | The dialog starts closed, with empty fields. |
| WritePage.ThumbnailDialog.SetOpen | client/src/pages/write.tsx:768 | Only the open flag changes. |
| WritePage.ThumbnailDialog.SetImageUrl | client/src/pages/write.tsx:794 | Only the URL changes. |
| WritePage.ThumbnailDialog.SetTitle | client/src/pages/write.tsx:804 | Only the title changes. |
| WritePage.ThumbnailDialog.AddImage | client/src/pages/write.tsx:755-765 | An empty URL raises a toast and leaves the thumbnail and the dialog as they were. Any other URL sets `{src, title}` and closes the dialog. |
| ThemeProvider.GetTheme | client/src/contexts/ThemeProvider.tsx:44-55 | The result is never "system". Dark stays dark and light stays light. "system" gives dark exactly when the OS prefers dark. |
| ThemeProvider.GetThemeIdempotent | client/src/contexts/ThemeProvider.tsx:44-55 | A resolved theme resolves to itself. |
| ThemeProvider.WithoutThemes | client/src/contexts/ThemeProvider.tsx:29 | Removing "light" and "dark" keeps exactly the other classes. |
| ThemeProvider.AddClass | client/src/contexts/ThemeProvider.tsx:30 | After adding, the list holds the old classes and the new one, and nothing else. |
| ThemeProvider.ClassName | client/src/contexts/ThemeProvider.tsx:30 | The class added is "dark" exactly for the dark theme and "light" exactly for the light one. |
| ThemeProvider.BodyClass | client/src/contexts/ThemeProvider.tsx:32-34 | The body's classes start with "bg-black" exactly for the dark theme. |
| ThemeProvider.EffectClasses | client/src/contexts/ThemeProvider.tsx:29-30 | After the effect a class is on the root exactly when it was there and is not "light" or "dark", or it is the resolved theme's class. |
| ThemeProvider.EffectClassList | client/src/contexts/ThemeProvider.tsx:29-30 | After the effect, the root holds exactly one of "light" and "dark" (the resolved theme) and the same other classes. It stays duplicate-free. |
| ThemeProvider.ThemeProvider.constructor | client/src/contexts/ThemeProvider.tsx:18-20 | The initial theme is the OS preference, resolved. `isDark` holds exactly when the OS prefers dark. |
| ThemeProvider.ThemeProvider.ToggleTheme | client/src/contexts/ThemeProvider.tsx:22-24 | The stored theme is the resolved option, never "system". |
| ThemeProvider.ThemeProvider.SetTheme | client/src/contexts/ThemeProvider.tsx:38 | The raw setter stores any option. |
| ThemeProvider.ThemeProvider.Effect | client/src/contexts/ThemeProvider.tsx:26-35 | The root classes become the effect's class list, and the body class follows `theme === "dark"`. |
| ThemeProvider.BodyMatchesRoot | client/src/contexts/ThemeProvider.tsx:29-34 | For a stored theme other than "system", the body is dark exactly when the root has "dark". |
| ThemeProvider.SystemThemeMismatch | client/src/contexts/ThemeProvider.tsx:32-34 | A stored "system" theme on a dark OS gives a dark root under a white body. |

## Left out

- Network, database and timer I/O are not modelled. Database failures appear only as fault inputs (`createFault`, `LoginFault`, `lookupFault`), and other thrown errors are not modelled. A rejection of `UserModel.exists` in signup is outside the route's `try` and is left out.
- The collaborators are inputs (the `Services` record and plain parameters): Argon2id hashing and verification, `isValidEmail`, `generateId`, and lucia's `validateSession`, session creation and cookie serialisation. Cookies are the `SessionCookie`/`BlankSessionCookie` values, not header strings.
- UserRoutes.EmailExists: for an email that is not a string, whether MongoDB's `exists` query matches is an input.
- UserRoutes.StoredString: a username that is not a string is stored as "", which the schema refuses. Mongoose's casting of numbers to strings is not modelled.
- UserRoutes.LoginOutcome: a new lucia session is taken to be fresh, and its expiry is not modelled.
- SignupForm.EmailError: the email regular expression is the parameter `pattern`.
- The signup form's `disabled`-while-pending options and its toasts are left out.
- Rendering, styles, skeletons and the tiptap editor are left out. The editor's state is the `EditorContent` input (`None` when empty, otherwise the HTML).
- SearchPage.SearchPage.DebouncedSetQuery: the 500 ms debounce is modelled as an explicit firing step. Cancelling earlier timers is not modelled.
- The search page's `useInfiniteQuery` fetching and paging are left out. `data` is the number of results on each page, and the request URL is the pure `QueryAsWritten`.
- The server route behind `/api/blogs/search` is not part of this model. `ParseQuery` reads a query string the way a URL-decoding server would.
- ChooseCategories.CategoryChooser.Submit: the onClick handler has no `return` after the "Choose at least 3 categories!" toast. The button is disabled in exactly that case, so the model's disabled-button early return covers it, and that toast is not modelled.
- React's batching and re-rendering are not modelled. Each setter and effect is one method call, and callers choose the order.
- ThemeProvider.WithoutThemes: the root's class list is a sequence, not a set of tokens. Duplicates are excluded only when the list starts without any, as `EffectClassList` proves.
- Each route handler is modelled as one atomic step. Signup's `exists` check (server/routes/userRoutes.ts:20) and its `create` (line 41) are separated by awaits, and the schema has no unique index on `email` (server/models/UserModel.ts:7-23). So the email-distinctness part of `UserModel.Valid`, and with it `UserRoutes.LoginFindsOwner`, holds only for signups that do not overlap.
- The client's signed-in `user` record is an input, not derived from `GET /me`. The `/me` route shown sends `name` rather than `username`, and no `hasNoCategories` (server/routes/userRoutes.ts:106-112). So `ChooseCategories.AuthUser.hasNoCategories` and the username that `WritePage.Publisher` puts in the success path are taken as given.
- The theme context's `setTheme` is exposed, but no component shown calls it. `SystemThemeMismatch` shows what a stored "system" would do.

## Findings

| source | as written | input that shows it | evidently intended | confidence | as-written member | corrected member |
|---|---|---|---|---|---|---|
| client/src/pages/search.tsx:76-78 | `q`, `type` and the comma-joined categories are put into the request URL without `encodeURIComponent`, so a value holding `&`, `=`, `%`, `#` or `+` is misread (`#` starts a fragment, and a query-string parser reads `+` as a space) | choosing only the category "Food & Cooking": the query `...&categories=Food & Cooking&page=1` is read as more than four parameters, the categories value ending at "Food " | each value encoded, so the server reads back exactly the four parameters | not executed | SearchPage.FoodAndCookingCut | SearchPage.FoodAndCookingKept |
