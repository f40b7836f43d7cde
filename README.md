# techlab-api: authentication, authorization and product handling in Dafny

This project models the core of techlab-api, a small Express + Firestore REST
API for a product catalogue with JWT authentication, together with the two
browser scripts that use it. Each part is modelled in the form the code has.

- **Users table and its adapter** (`UsersModel`). The `users` collection is a
  sequence of records inside a `UserStore` class. Lookups by exact username or
  email return the first matching record of the sequence. Firestore returns
  the match with the smallest document id; the model takes the earliest
  appended record instead. The two differ only when a username or email is
  stored twice. `create` appends one
  record that holds the bcrypt hash, and returns the record without its
  password.
- **Authentication service** (`AuthService`). It provides `register`, `login`,
  `validateCredentials` and `generateToken`.
  - Each operation is a pure specification function of the table before the
    call.
  - A method performs the operation on the `UserStore` and is proved equal to
    that function.
  - `register` runs six checks, in a fixed order, before its one write. The
    email check is the regular expression `^[^\s@]+@[^\s@]+\.[^\s@]+$`,
    restated as a predicate and proved equal to a direct description of the
    pattern.
- **Crypto** (`Crypto`). bcrypt and jsonwebtoken are records of functions.
  What the model assumes about them is a ghost predicate, `HasherAxioms` or
  `SignerAxioms`, and each lemma requires it explicitly:
  - hash/compare: a hash is never the plaintext. Comparing a password with a
    hash succeeds exactly when the two passwords have the same bcrypt key. The
    key is the first 72 bytes of the password's UTF-8 bytes, followed by a
    zero byte and repeated. `register` sets no maximum length, so any text
    appended to a password of 72 bytes or more is accepted too.
  - sign/verify: a token verifies to what was signed until `exp`; after that,
    verification throws `TokenExpiredError`; a token that verifies was
    produced by `sign`; a token `sign` never produced throws
    `JsonWebTokenError`.
- **Authentication gate** (`Middleware`). `authMiddleware` first classifies
  the `Authorization` header (`Gate`), then sets `req.user` or writes the
  reply.
  - It takes the second space-separated field and never looks at the scheme
    word. So `Token xyz` is verified exactly like `Bearer xyz`. This is looser
    than section 2.1 of RFC 6750.
  - `Routes` holds the product route table: reads are public, and writes sit
    behind the gate.
- **Controllers** (`AuthController`, `ProductsController`). Each handler is a
  function from the request and the service outcome to the HTTP reply.
  Errors are mapped to statuses by substring tests on their messages, and
  lemmas show which status each message the service throws gets.
- **Products table, service and handlers** (`ProductsModel`,
  `ProductsService`).
  - The `products` collection is a map from document id to a JSON object,
    held by a `ProductStore` class.
  - The service validates the name and price, and checks that the product
    exists, before it writes. A write touches only the given id.
  - When a stored document has a field called `id`, that field overrides the
    document id in what `getAll` and `getById` return, because the data is
    spread after the id.
- **Browser session** (`Session`). `SessionManager` keeps `token` and `user`
  in fields and mirrors them into `localStorage` under `authToken` and
  `authUser`.
  - Every transition is a function on a `State` value. The class's methods are
    proved equal to those functions.
  - The invariant "the fields are what the storage holds" is kept by every
    transition, and a saved session survives a page reload.
  - `authenticatedFetch` clears the session on 401, on 403, or when the
    session is not authenticated.
- **Product page** (`ProductsPage`).
  - `escapeHtml` is the source's chain of five `replace` calls. It is proved
    equal to a one-character-at-a-time escape, and entity decoding undoes it.
  - The product cache is rebuilt on every listing, and the edit dialog looks
    products up in it.

The network, the clock, Firestore's id generator, randomness (the bcrypt salt),
`JSON` and the DOM are parameters. Store errors are an optional message per
store call, and the model passes that message on unchanged.

## Model

| member | source | states |
|---|---|---|
| UsersModel.FirstIndex | src/models/users.model.js:21-28 | the index returned is the first whose queried field equals the value; every earlier record differs; it is the length when nothing matches |
| UsersModel.FirstMatch | src/models/users.model.js:21-32 | the lookup returns no user exactly when no record has that value; otherwise it returns the first matching record |
| UsersModel.UserStore.FindByUsername | src/models/users.model.js:18-37 | a store error is rethrown unchanged; otherwise the result is no user when no record has exactly that username, and otherwise the first such record |
| UsersModel.UserStore.FindByEmail | src/models/users.model.js:42-61 | the same contract, keyed on email |
| UsersModel.UserStore.Create | src/models/users.model.js:66-94 | a store error leaves the table unchanged and is rethrown; otherwise exactly one record is appended, holding the hashed password and both timestamps, and the returned user has id, username, email, createdAt and updatedAt but no password |
| UsersModel.NewRecordStoresHash | src/models/users.model.js:71-76 | under the hasher's assumptions the stored password is never the plaintext; `verifyPassword` accepts against it exactly the passwords whose bcrypt key is the original's, the original among them |
| UsersModel.LongPasswordAcceptsAnySuffix | src/models/users.model.js:71-76 | once a password's UTF-8 bytes fill bcrypt's 72-byte key, the stored hash also accepts that password followed by any text |
| UsersModel.VerifyPassword | src/models/users.model.js:99-101 | under the hasher's assumptions, against a hash made from `p` the answer is true exactly when the plain password has `p`'s bcrypt key |
| AuthService.ValidEmailIffPattern | src/services/auth.service.js:58-61 | the email check holds exactly when there is one `@` with a non-empty local part before it, the domain after it has a `.` that is neither its first nor its last character, and there is no whitespace and no other `@` |
| AuthService.EmailAccepted | src/services/auth.service.js:58-61 | "a@b.c" is accepted |
| AuthService.EmailDoubleDotAccepted | src/services/auth.service.js:58-61 | "a@b..c" is accepted: the pattern only needs some interior dot |
| AuthService.EmailWithoutDotRejected | src/services/auth.service.js:58-61 | "a@bc", "a@.c" and "a@c." are rejected |
| AuthService.EmailSpaceOrSecondAtRejected | src/services/auth.service.js:58-61 | "a b@c.d" and "a@b@c.d" are rejected |
| AuthService.CheckRegistration | src/services/auth.service.js:53-71 | the four local checks in order, first failure wins: each message is returned exactly when its check fails and all earlier ones pass; none is returned exactly when all pass |
| AuthService.GenerateToken | src/services/auth.service.js:33-46 | under the signer's assumptions the token is non-empty, holds no space, and verifies at issue time to exactly id, username and email, with `exp` 24 hours after `iat` |
| AuthService.GeneratedTokenVerifies | src/services/auth.service.js:33-46 | a generated token carries exactly id, username and email; it verifies for 24 hours after issue and is reported expired from then on |
| AuthService.RegisterSpec | src/services/auth.service.js:51-99 | a failed registration leaves the table unchanged; a successful one appends exactly the new record, and returns that record without its password together with a token generated from it |
| AuthService.CredentialsSpec | src/services/auth.service.js:10-28 | the lookup's error is rethrown; an unknown username gives null; for a known username, the first record with it decides: that user without its password when the password verifies against its hash, and null when it does not |
| AuthService.LoginSpec | src/services/auth.service.js:104-124 | the token returned is generated from the user returned alongside it |
| AuthService.RegisterCheckOrder | src/services/auth.service.js:53-90 | the registration outcome follows the check chain: the local check's message wins; with a store that does not fail, "username taken" and "email taken" come exactly when the username, then the email, is in use; success comes exactly when every check passes; every failure is one of the six messages or a store error |
| AuthService.RegisterKeepsKeysUnique | src/services/auth.service.js:73-90 | registrations made one after another keep usernames and emails unique in the table |
| AuthService.LoginEnumerationResistance | src/services/auth.service.js:111-115 | with both fields given, an unknown username and a wrong password fail with the same "Credenciales inválidas" |
| AuthService.LoginRequiresFieldsFirst | src/services/auth.service.js:106-108 | an empty username or password fails with "Usuario y contraseña son requeridos" whatever the table holds and whatever the store would do |
| AuthService.RegisterThenLogin | src/services/auth.service.js:51-124 | after a successful registration, logging in with the same username and password returns the registered user, and a token generated from that user |
| AuthService.StoredUserCanLogin | src/services/auth.service.js:104-124 | with unique usernames, every stored user whose hash was made from `p` logs in with its username and `p` (both non-empty), getting itself without the password and a token generated from it |
| AuthService.ValidateCredentials | src/services/auth.service.js:10-28 | `validateCredentials` on the store gives exactly the specified result |
| AuthService.Login | src/services/auth.service.js:104-124 | `login` on the store gives exactly the specified result and does not write |
| AuthService.Register | src/services/auth.service.js:51-99 | `register` on the store gives the specified result and leaves the table in the specified state |
| Middleware.TokenField | src/middlewares/auth.middleware.js:23 | `split(" ")[1]` exists exactly when the header contains a space, and it never contains a space |
| Middleware.TokenFieldAfterScheme | src/middlewares/auth.middleware.js:23 | for `scheme + " " + token`, optionally followed by more space-separated text, the field taken is the token, whatever the scheme word |
| Middleware.Classify | src/middlewares/auth.middleware.js:33-59 | a successful verification continues with the decoded claims; `JsonWebTokenError` gives 403 "Token inválido"; `TokenExpiredError` gives 403 "Token expirado"; any other error gives 500 |
| Middleware.Gate | src/middlewares/auth.middleware.js:10-61 | 401 "Token de autenticación requerido" exactly when the header is absent or empty; 401 for a bad format exactly when the second field is missing or empty; the request passes only with claims to which some token in the second field verifies; a non-empty second field is decided by classifying its verification, whatever follows it |
| Middleware.GateIgnoresScheme | src/middlewares/auth.middleware.js:23-33 | for any scheme word, the gate's decision is the verification of the token after the first space |
| Middleware.GateSchemeIrrelevant | src/middlewares/auth.middleware.js:23-33 | two headers that differ only in the scheme word get the same decision |
| Middleware.GateAcceptsAnyScheme | src/middlewares/auth.middleware.js:23-33 | "Token xyz" is treated exactly like "Bearer xyz" |
| Middleware.GateSchemeOnlyMalformed | src/middlewares/auth.middleware.js:23-30 | "Bearer" alone gets 401 for a bad format |
| Middleware.GateEmptyFieldMalformed | src/middlewares/auth.middleware.js:23-30 | "Bearer " and "Bearer  xyz" get 401 for a bad format |
| Middleware.GateAcceptsOnlySigned | src/middlewares/auth.middleware.js:23-39 | under the signer's assumptions, a request passes only with a genuine, unexpired token, and the claims attached are the ones that were signed |
| Middleware.GateRejectsForgedToken | src/middlewares/auth.middleware.js:23-46 | under the signer's assumptions, "Bearer " followed by a token that `sign` never produced is answered 403 "Token inválido", at any time |
| Middleware.GateAcceptsIssuedToken | src/middlewares/auth.middleware.js:23-53 | a token the service issued, sent as "Bearer <token>", passes with the user's claims for 24 hours, and is answered 403 "Token expirado" from then on |
| Middleware.AuthMiddleware | src/middlewares/auth.middleware.js:10-61 | on every path exactly one of `next()` or a reply happens; only when the request passes is `req.user` set, to the decoded claims |
| Routes.GatedIffWrite | src/routes/products.routes.js:8-14 | each route is gated exactly when its verb is not GET, and each handler has one route |
| Routes.ReadsArePublic | src/routes/products.routes.js:8-9 | both read routes reach their handler whatever the header |
| Routes.WritesNeedSignedToken | src/routes/products.routes.js:12-14 | under the signer's assumptions, a write reaches its handler only with a genuine, unexpired token in the header |
| Routes.WritesWithoutHeaderRejected | src/routes/products.routes.js:12-14 | a write with no Authorization header is answered 401 and never reaches its handler |
| AuthController.Register | src/controllers/auth.controller.js:6-58 | a missing field gives 400 without looking at the service outcome; success gives 201 with the service's token and user; an error containing "requeridos", "inválido", "caracteres" or "ya está" gives 400 with that message; any other error gives 500, with the error text only when NODE_ENV is unset, empty or "development" |
| AuthController.Login | src/controllers/auth.controller.js:63-100 | a missing field gives 400 before the service call; success gives 200; an error containing "requeridos" or "inválidas" gives 401; anything else gives 500 |
| AuthController.ServerErrorsAreGeneric | src/controllers/auth.controller.js:6-100 | register and login answer 500 exactly when the fields are present and the service failed with a message carrying no client-error marker; the reply's message is then the fixed text, and only register in development adds the service's message as `error` |
| AuthController.RegisterValidationMessagesAre400 | src/controllers/auth.controller.js:31-41 | each of the six messages `register` throws itself contains one of the four 400 markers |
| AuthController.LoginValidationMessagesAre401 | src/controllers/auth.controller.js:87-92 | both messages `login` throws itself are answered 401 |
| AuthController.RegisterWithHealthyStore | src/controllers/auth.controller.js:19-41 | with a store that does not fail, registration is answered 201 or 400, never 500, and 201 exactly when a record was added |
| AuthController.LoginWithHealthyStore | src/controllers/auth.controller.js:76-92 | with a store that does not fail, login is answered 200 or 401 "Credenciales inválidas", and an unknown username always gets the 401 |
| ProductsModel.Stamped | src/models/products.model.js:65-69 | the stored document holds every given field, with both timestamps set to the current time and replacing any given ones |
| ProductsModel.Merged | src/models/products.model.js:84-87 | after the update, the given fields overwrite, the others keep their old values, and updatedAt is the current time |
| ProductsModel.ProductStore.GetAll | src/models/products.model.js:17-35 | a store error is rethrown; otherwise there is one entry per stored document, with no document twice, each being its data with the id attached |
| ProductsModel.ProductStore.GetById | src/models/products.model.js:40-57 | a store error is rethrown; otherwise the result is null exactly when the id is absent, and otherwise the record with its id |
| ProductsModel.ProductStore.Create | src/models/products.model.js:62-76 | on success, the stamped data is stored under a new id, which is returned; on a store error nothing changes |
| ProductsModel.ProductStore.Update | src/models/products.model.js:81-94 | only that id changes, to the merged document, and the id is returned; a missing document or a store error changes nothing and is rethrown |
| ProductsModel.ProductStore.Remove | src/models/products.model.js:99-109 | only that id is deleted, and the id is returned; a store error changes nothing |
| ProductsService.CreateValidation | src/services/products.service.js:28-35 | "Nombre y precio son requeridos" exactly when the name or the price is falsy, so a price of 0 counts as missing; "El precio debe ser un número positivo" exactly when both are present but the price is not a number greater than 0 |
| ProductsService.UpdateValidation | src/services/products.service.js:51-53 | the price message comes exactly when a price is supplied that is not a number greater than 0 |
| ProductsService.GetAllProducts | src/services/products.service.js:6-8 | the adapter's listing is passed on |
| ProductsService.GetProductById | src/services/products.service.js:13-21 | "Producto no encontrado" exactly when the store has no document for the id; otherwise the document with its id |
| ProductsService.CreateProduct | src/services/products.service.js:26-38 | both checks run before the store is called; a failed check or a store error leaves the store unchanged; on success exactly one document, the stamped data, is added under the new id, which is returned |
| ProductsService.UpdateProduct | src/services/products.service.js:43-56 | existence is checked first, then the supplied price, then the write; not found and a bad price write nothing; a successful write changes only that id |
| ProductsService.DeleteProduct | src/services/products.service.js:61-70 | an absent id gives not found and leaves the store unchanged; otherwise only that id is removed |
| ProductsController.GetAllProducts | src/controllers/products.controller.js:6-21 | 200 with the list and a count equal to its length, or 500 with a fixed message |
| ProductsController.GetProductById | src/controllers/products.controller.js:26-57 | a missing id gives 400 before the service call; exactly "Producto no encontrado" gives 404; any other error gives 500; success gives 200 with the product |
| ProductsController.CreateProduct | src/controllers/products.controller.js:62-95 | a falsy name or price gives 400 before the service call; an error containing "requeridos" or "precio" gives 400 with that message; any other error gives 500; success gives 201 with the new id |
| ProductsController.UpdateProduct | src/controllers/products.controller.js:100-140 | a missing id gives 400; not found gives 404; an error containing "precio" gives 400; any other error gives 500; success gives 200 with the id |
| ProductsController.DeleteProduct | src/controllers/products.controller.js:145-176 | a missing id gives 400; not found gives 404; any other error gives 500; success gives 200 |
| ProductsController.ServerErrorsAreGeneric | src/controllers/products.controller.js:6-176 | each handler answers 500 exactly when the service failed with a message it does not map to 400 or 404, and the 500's body is then the handler's fixed text, never the service's message |
| ProductsController.ServiceMessagesMentionFields | src/services/products.service.js:29-34 | the two validation messages contain "requeridos" and "precio" respectively |
| ProductsController.ServiceMessagesStatuses | src/controllers/products.controller.js:44-132 | the service's own messages get their intended statuses: both creation messages 400, the update price message 400, and not found 404 in get, update and delete |
| ProductsController.PrechecksIgnoreService | src/controllers/products.controller.js:30-72 | a missing id, name or price is answered the same whatever the service would have done |
| Session.Authenticated | public/js/session.js:41-43 | an authenticated session always has a token, so `getAuthHeaders` does not throw |
| Session.Lookup | public/js/session.js:16 | `getItem` gives null exactly for an absent key, and otherwise the stored text |
| Session.Cleared | public/js/session.js:64-69 | both keys are removed, every other key is kept, and both fields become null |
| Session.LoadedMirrors | public/js/session.js:15-36 | a freshly constructed manager mirrors its storage; a stored user that does not parse clears the session and leaves it unauthenticated; otherwise the storage is untouched |
| Session.SavedEffect | public/js/session.js:50-59 | `saveSession` throws exactly when the token, the user, its id or its username is missing, and then changes nothing; otherwise both keys and both fields hold the given session, no other key changes, the session is authenticated and the fields mirror the storage |
| Session.ReloadRestoresSession | public/js/session.js:15-18 | a manager built over the storage `saveSession` left behind has the same token and user |
| Session.ClearedEffect | public/js/session.js:64-69 | after `clearSession` the session is not authenticated and the fields mirror the storage; a second call changes nothing |
| Session.AuthHeadersEffect | public/js/session.js:81-89 | `getAuthHeaders` throws exactly when there is no token; otherwise Authorization is "Bearer " followed by the token |
| Session.ClientHeaderMatchesGate | public/js/session.js:86 | for a token without spaces, the server's gate takes exactly the token from the client's Authorization header |
| Session.IssuedSessionPassesGate | public/js/session.js:81-89 | a session holding a token the service issued sends a header the gate accepts, with the issuing user's claims, during the token's 24 hours |
| Session.FetchEffect | public/js/session.js:96-119 | the session is cleared and the window sent to "/" exactly when the session is not authenticated or the answer is 401 or 403; otherwise the status is handed back and nothing changes; no request is sent when the session is not authenticated |
| Session.FetchHeaders | public/js/session.js:103-109 | the request carries the bearer token unless the caller's own headers name Authorization, in which case the caller's value wins |
| Session.SessionManager.constructor | public/js/session.js:15-18 | the manager's state is the one loaded from the storage, and the fields mirror the storage |
| Session.SessionManager.ParseUser | public/js/session.js:24-36 | the stored user is read back; text that does not parse clears the session and gives null; with the token field read from storage, the user returned is the stored one |
| Session.SessionManager.IsAuthenticated | public/js/session.js:41-43 | while the fields mirror the storage, the answer is whether a manager freshly loaded from that storage would be authenticated |
| Session.SessionManager.GetAuthHeaders | public/js/session.js:81-89 | throws "No hay token disponible" exactly when the token is null or empty; otherwise the headers are Authorization "Bearer " plus the token and Content-Type "application/json" |
| Session.SessionManager.SaveSession | public/js/session.js:50-59 | the session becomes the specified saved state, or the error is returned with nothing changed; on success the invariant holds and the session is authenticated; the invariant is never broken |
| Session.SessionManager.ClearSession | public/js/session.js:64-69 | the session becomes the cleared state; the invariant holds and the session is not authenticated |
| Session.SessionManager.AuthenticatedFetch | public/js/session.js:96-119 | the result, the headers sent, the new state and the window location are the specified ones; a failure leaves the session cleared and mirrored; the invariant is never broken |
| Session.ProtectRouteHome | public/js/session.js:130-136 | called without an argument, `protectRoute` redirects to "/": the answer is whether the session is authenticated, and only when it is not does the window go to "/" |
| Session.ProtectRoute | public/js/session.js:130-136 | the answer is whether the session is authenticated; only when it is not is the window sent to the given address |
| ProductsPage.EscapeHtml | public/js/products.js:200-208 | null and undefined give ""; any string gives the one-pass escape in which each character is replaced by its own entity |
| ProductsPage.EscapeHtmlIsPerChar | public/js/products.js:202-207 | the chain of replacements equals escaping each character on its own, because `&` is replaced first |
| ProductsPage.EscapeFalsy | public/js/products.js:201 | a null, undefined or empty input gives "" |
| ProductsPage.EscapeLeavesNoMarkup | public/js/products.js:202-207 | the output contains no `<`, `>`, `"` or `'` |
| ProductsPage.EscapeAmpersandsAreEntities | public/js/products.js:203-207 | every `&` in the output begins one of the five entities |
| ProductsPage.EscapePlainUnchanged | public/js/products.js:202-207 | a string with none of the five special characters is returned unchanged |
| ProductsPage.EscapeLength | public/js/products.js:202-207 | the output is never shorter than the input, and is longer exactly when a special character occurs |
| ProductsPage.UnescapeEscape | public/js/products.js:202-207 | decoding the five entities gives the input back |
| ProductsPage.EscapeNotIdempotent | public/js/products.js:203-207 | escaping is not idempotent: once the input holds a special character, escaping the output again makes it strictly longer |
| ProductsPage.EscapeAmpersandFirst | public/js/products.js:203 | a leading `&` becomes `&amp;` and the rest is escaped on its own, so "&lt;" becomes "&amp;lt;" |
| ProductsPage.LastWith | public/js/products.js:52-55 | the position found holds the id, and no later product does |
| ProductsPage.CacheOfLookup | public/js/products.js:52-55 | an id is cached exactly when it is listed, and it maps to the last product listed under it |
| ProductsPage.CacheOfKeys | public/js/products.js:52-55 | the cache's keys are exactly the listed ids |
| ProductsPage.Page.DisplayProducts | public/js/products.js:51-55 | the cache is reset, then filled in list order |
| ProductsPage.Page.OpenEditModal | public/js/products.js:210-223 | an id missing from the cache shows "Producto no encontrado" and leaves the dialog as it was; otherwise the dialog opens with the cached product's name and price, its stock and description or "", and the id |
| ProductsPage.OpenAfterListing | public/js/products.js:51-55 | after a listing, the dialog opens exactly for the listed ids, and shows the last product listed under that id |

## Left out

- Password hashing and token signing: bcrypt's algorithm, random salt and cost factor, and the HS256 signature are not modelled. Only the properties in `HasherAxioms` and `SignerAxioms` are assumed. The expiry boundary (rejection once `now >= exp`) is an assumption about jsonwebtoken.
- Firestore behaviour beyond a map is not modelled: query indexes, network errors, and the order of query results. A store error is a message passed in, one per store call. Fresh document ids come from a parameter, assumed not yet in use.
- UsersModel.FirstMatch: when several records share a username or email (possible through the `register` race below), Firestore's query answers with the smallest document id, while the model answers with the earliest appended record.
- The ordering of `getAll` is not modelled: the snapshot's order is left unspecified, and the model promises only one entry per document.
- Concurrency is not modelled. Calls run one after another, so the race between `register`'s uniqueness checks and its `create` does not arise.
- AuthService.GenerateToken: `JWT_SECRET` is assumed to be set, so `jwt.sign` never throws. When it is unset, `register` has already stored the new user when `generateToken` throws, so the source answers 500 and keeps the record. `login` answers 500 in that case too. The model promises neither of these: it states that a failed registration leaves the table unchanged, and `AuthController.RegisterWithHealthyStore` that a healthy store never gets a 500.
- ProductsModel.ProductStore.Update: Firestore's error for a missing document is "No document to update: " followed by the document path; the model uses the fixed text "No document to update". `updateDoc` also reads a dotted key such as "a.b" as a path to a nested field, while `ProductsModel.Merged` sets a top-level key of that name. Neither affects a status the controllers return, because the service checks that the product exists before it writes.
- Timestamps: `new Date().toISOString()` is an opaque string parameter, and the JWT clock is a number of seconds.
- UsersModel.NewRecord and ProductsModel.Stamped: the source reads the clock twice, once for `createdAt` and once for `updatedAt`, so the two can differ by a millisecond. The model uses one `stamp` for both.
- HasherAxioms: different bcrypt keys are taken never to give the same hash, so collisions of the 184-bit output are not modelled. Passwords are Unicode scalar values: a JavaScript string with a lone surrogate, and how bcryptjs would encode it, is not modelled.
- Stack traces are not modelled. The 500 reply of `register` carries the error message only (in development), not `details`.
- Request bodies: fields of the auth request bodies are modelled as strings, with "" standing for a missing field. A body that is absent, or a field that is not a string, is not modelled.
- String lengths count characters, not UTF-16 code units, for `password.length` and `username.length`.
- Express and Firebase wiring are not modelled (server.js, index.js, src/config/firebase.js, the routers): the app setup, `listen` and environment loading. The product route table is kept as a constant.
- The browser's DOM is not modelled: rendering HTML, `fetch` itself, `showMessage`, `setTimeout`, `confirm` and the other handlers of public/js/products.js and public/js/index.js. The chrome extension listener at the top of public/js/session.js is left out too.
- Session.SessionManager.AuthenticatedFetch: the response is reduced to its status, which is given as a parameter.
- Price parsing and formatting in the page (`parseFloat`, `toFixed`, `parseInt`) are floating point and not modelled. JSON numbers are reals in the model.
- ProductsPage.Page.DisplayProducts: product ids are taken to be strings. A stored `id` field that is not a string would be converted to a cache key by JavaScript; that is not modelled. A non-string `name` makes `escapeHtml` throw during the rebuild, leaving the cache partly filled; that is not modelled either.
- ProductsPage.EscapeHtml takes a string, `null` or `undefined`. A truthy non-string argument (which makes `replace` throw) is not modelled.
- ProductsPage.Page.OpenEditModal: an id naming a property inherited by plain objects (such as `constructor`) would be found in the cache object. The model treats the cache as a plain map, so such ids are not found.
- `getToken()` of `SessionManager` is not modelled separately: it returns the `token` field.
- Session.ClientUser: `JSON.parse` results other than a user object or null are not modelled. The user's fields are taken to be strings.
