# Points tracker: account store and button logic

This project models the two pieces of logic in the points tracker: the
Express/MongoDB server (`server.js`) and the button and points handling of the
React client (`client/src/App.js`). It proves properties of both in Dafny.

**Server (`server.dfy`, module `AccountServer`).** The `User` collection is a
`map<UserId, User>` held by a `Server` object. Each REST handler is a method
that returns the HTTP status and JSON body it sends. The points and buttons
writes state the new table using `WithPoints` or `WithButtons`. `Signup` and
`CreateDefaultUser` state it as the old table plus one entry under a fresh id. The lemmas next to
those functions prove the clamp, idempotence, the frame (other users and other
fields stay the same) and the read-after-write round trips. The object invariant
`Valid()` holds throughout: usernames are unique and non-empty, points are
never negative, and every id is below the next one to be handed out.
bcrypt (`hash`, `compare`) and jsonwebtoken (`sign`, `verify`) are passed to the
constructor as functions, so the model does not depend on how they work inside.
Their hidden inputs are explicit arguments: bcrypt's random salt, and the clock
reading that `jwt.sign` stamps into every token as `iat`. Where a lemma needs a
property of them, that property is a precondition: verify accepts what sign
produced, and a token contains no space. The `authenticateToken`
middleware is the function `Authenticate`. It is built on a model of
JavaScript's `split(' ')`, proved to be the inverse of joining with spaces, so a
token issued at login provably passes the gate. Like the source, the gate does
not look at the scheme word (`Bearer`). The token is the text between the first
and the second space; anything after a second space is ignored. Two spaces in a
row give an empty token, which is refused with 401.

**Client (`client.dfy`, module `PointsClient`).** The click, append and
delete-by-id computations are functions, with lemmas for their properties. The
component's `useState` hooks are the fields of an `App` object, and the handlers
are methods that update them. The client identifies its user by the Firebase
`uid`, which it sends in the body of the points request with no token; the
server expects a bearer token. The two identity models are kept separate and are
not merged.

`wrappers.dfy` holds the `Option` type shared by both modules.

A button's `type` is any string, and only `'add'` adds. A button's `points`
may be any integer. Login checks the password with bcrypt's `compare`.

## Model

| member | source | states |
|---|---|---|
| AccountServer.Clamp | server.js:110 | `Math.max(0, points)`: the result is non-negative, at least the input, and is either 0 or the input |
| AccountServer.SigningKey | server.js:74 | the key `JWT_SECRET`, falling back to `default_secret`: the key is never empty; a set, non-empty variable is used as is; an unset or empty one gives `default_secret` |
| AccountServer.Split | server.js:93 | `split(' ')` returns at least one field, no field contains a space, and joining the fields with spaces gives back the input |
| AccountServer.SplitNoSpace | server.js:93 | a string with no space splits into itself alone |
| AccountServer.SplitField | server.js:93 | splitting `a + " " + r` (where `a` has no space) gives `a` followed by the fields of `r` |
| AccountServer.SplitJoin | server.js:93 | splitting undoes joining, for fields that hold no space |
| AccountServer.BearerToken | server.js:93 | `authorization?.split(' ')[1]`: an extracted token contains no space; a missing header, or one with no space, gives no token; a header with a space always gives a token |
| AccountServer.SchemeAndToken | server.js:93 | the header `"<scheme> <token>"` yields exactly `token` |
| AccountServer.SchemeTokenAndRest | server.js:93 | the header `"<scheme> <token> <rest>"` yields exactly `token`: the text between the first and second space |
| AccountServer.UsernameTaken | server.js:174-175 | the `findOne({ username })` test: some stored user has that username (also at 46-47 and 68-70) |
| AccountServer.UniqueUsernames | server.js:23 | the schema's `unique: true`: two stored users with the same username are the same user |
| AccountServer.WellFormed | server.js:23-25 | every stored username is non-empty (`required: true`), and every stored points value is at least 0 |
| AccountServer.WithPoints | server.js:110-111 | a points write keeps the set of ids and stores a non-negative value |
| AccountServer.WithButtons | server.js:152-153 | a buttons write keeps the set of ids |
| AccountServer.PointsOf | server.js:121-123 | the points read succeeds exactly when the id is stored; otherwise it is 404 "User not found" |
| AccountServer.UserDataOf | server.js:132-134 | the user-data read succeeds exactly when the id is stored; otherwise it is 404 "User not found" |
| AccountServer.WithPointsFrame | server.js:107-112 | a points write changes only that user's `points` field, to the clamped value; every other user is unchanged |
| AccountServer.WithPointsIdempotent | server.js:110-111 | writing the same points twice gives the same table as writing them once |
| AccountServer.WithPointsKeepsInvariants | server.js:110 | a points write keeps usernames unique and keeps all points at or above 0 |
| AccountServer.PointsRoundTrip | server.js:110-123 | after a points write, the points read returns 200 with the clamped value |
| AccountServer.WithButtonsFrame | server.js:152-153 | a buttons write replaces only that user's list; all other fields and all other users are unchanged |
| AccountServer.WithButtonsKeepsInvariants | server.js:152 | a buttons write keeps the table's invariants |
| AccountServer.ButtonsRoundTrip | server.js:130-156 | after a buttons write, the user-data read returns exactly that list (including `[]`) with the points unchanged |
| AccountServer.AddUserKeepsInvariants | server.js:174-193 | adding a user under a fresh id with a free, non-empty username keeps the invariants |
| AccountServer.Server.constructor | server.js:22-41 | the collection starts empty; the signing key is the configured one; the crypto functions are the given ones |
| AccountServer.Server.Authenticate | server.js:92-101 | denial is only ever 401 "No token provided" or 403 "Invalid token"; 401 exactly when the token is missing or empty; otherwise, proceed with the `userId` that verify returns, or 403 if verify fails |
| AccountServer.Server.IssuedTokenAuthenticates | server.js:92-100 | `Bearer <token>`, where the token was signed at login for an id (at any time), passes the gate with that id |
| AccountServer.Server.MissingTokenRefused | server.js:93-94 | no header, or a header without a space, gives 401 "No token provided" |
| AccountServer.Server.CreateDefaultUser | server.js:44-60 | if the username is taken, nothing changes; otherwise exactly one user `casimirdebonneval` is added, with the hash of `pass` at cost 10, 0 points and no buttons |
| AccountServer.Server.Signup | server.js:169-199 | a taken username gives 400 "Username already exists" and no change; an empty one gives 500 and no change; otherwise 201 and exactly one new user under a fresh id, storing the hash and not the password, with 0 points and `[]`, and all other users unchanged |
| AccountServer.Server.Login | server.js:65-89 | an unknown username and a wrong password give the same 401 "Invalid credentials"; the right password gives 200 with a token signed for that user's id at the current time, and the stored points and buttons; the table is never modified |
| AccountServer.Server.PostPoints | server.js:104-116 | the gate's denial is passed through unchanged; an unknown id gives 404; otherwise `max(0, points)` is stored and returned; on every branch nothing else changes |
| AccountServer.Server.GetPoints | server.js:119-127 | the gate's denial, or the stored points, or 404; the table is never modified |
| AccountServer.Server.GetUserData | server.js:130-138 | the gate's denial, or the stored points and buttons, or 404; the table is never modified |
| AccountServer.Server.PostButtons | server.js:141-166 | the gate's denial, or 404 with no change, or the list replaced wholesale and echoed back with 200 |
| AccountServer.Walkthrough | server.js:65-199 | from the handlers' contracts alone: sign-up gives 201; login gives 0 points and `[]`; a wrong password and an unknown user give the same 401; with the issued token, the buttons write is read back and points 10 then -5 are stored as 10 then 0 |
| AccountServer.SignUpAndLogIn | server.js:65-89 | on an empty store: sign-up gives 201 and stores the hash with 0 points and `[]`; login gives a token, 0 points and `[]`; a wrong password and an unknown user give the same 401 |
| AccountServer.UseSession | server.js:104-166 | with a header that authenticates as a stored user: the buttons write is echoed, the user-data read returns that list with the old points, and points 10 then -5 are stored as 10 then 0 |
| PointsClient.PointsAfterClick | client/src/App.js:138-143 | an `'add'` button gives exactly `points + button.points`; any other type gives a result that is non-negative, at least `points - button.points`, and equal to 0 or to `points - button.points` |
| PointsClient.SubtractStaysInRange | client/src/App.js:139-141 | a non-add click with a non-negative amount on a non-negative total gives a result between 0 and `points` |
| PointsClient.Appended | client/src/App.js:65 | the result is one element longer; the earlier buttons stay in place, in their order, and the new button is last |
| PointsClient.WithoutId | client/src/App.js:72 | `buttons.filter(button => button.id !== buttonId)`: never longer than the input (its full description is `WithoutIdSpec`) |
| PointsClient.WithoutIdSpec | client/src/App.js:72 | after delete-by-id, no button with that id is left; every other button occurs as often as before; the survivors keep their original order |
| PointsClient.WithoutAbsentId | client/src/App.js:72 | deleting an id that no button carries leaves the list unchanged |
| PointsClient.WithoutIdIdempotent | client/src/App.js:71-73 | deleting the same id twice is the same as deleting it once |
| PointsClient.WithoutIdAppended | client/src/App.js:65-72 | deleting by id after appending drops the new button exactly when it has that id |
| PointsClient.WithoutIdCommutes | client/src/App.js:72 | deleting two ids gives the same list in either order |
| PointsClient.App.constructor | client/src/App.js:8-23 | starts signed out with 0 points, the saved buttons, a hidden form, empty fields and type `'add'` |
| PointsClient.App.AuthStateChanged | client/src/App.js:30-40 | a user: stored, and logged in; no user: `user` is none, not logged in, points 0; the buttons and form are unchanged |
| PointsClient.App.CreateButton | client/src/App.js:57-69 | appends one button built from the form fields and the timestamp; clears the name and points fields; hides the form; keeps the type field and the session |
| PointsClient.App.DeleteButton | client/src/App.js:71-73 | the list becomes the delete-by-id filter of the old list; nothing else changes |
| PointsClient.App.ButtonClick | client/src/App.js:114-143 | posts nothing when signed out; otherwise posts the signed-in uid with exactly `PointsAfterClick(points, button)`; no state changes |
| PointsClient.App.ReceivePoints | client/src/App.js:129-132 | an ok response sets the points to the returned value; a failed one keeps them |

## Left out

- MongoDB connection, `find`/`save` I/O, Express routing, static files, the catch-all route, `app.listen` and logging (server.js:1-19, 202-209). An in-memory map replaces the collection.
- Document ids: MongoDB's ObjectId is modelled as a natural number drawn from a counter (`nextId`). Only freshness matters.
- The index removal at server.js:34-39. It is metadata for Mongoose. Uniqueness of usernames is kept by the signup check and proved as an invariant.
- The `email` half of the signup lookup (server.js:171-180). `email` is not a schema field, so whether it can match depends on Mongoose query semantics. The model looks up by username only, so the "Email already exists" branch never occurs.
- bcrypt and JWT are not verified. They are parameters: bcrypt's random salt is an argument of `Signup` and `CreateDefaultUser`; the cryptographic guarantees appear only as preconditions of the lemmas that need them.
- 500 paths: store faults, a throwing bcrypt, and the error swallowed by `createDefaultUser`'s catch are not modelled. The only one kept is an empty username at signup, which the schema's `required` validator rejects at `save`.
- Request bodies that are missing a field or have the wrong type: an absent `points` (where `Math.max` gives NaN), an absent or malformed `buttons`, and Mongoose's casting of button fields. Handler arguments are typed values.
- Button elements: the schema at server.js:26-31 declares each element as an object with a key named `type`. Mongoose may read such an object as a type declaration, which would make `buttons` an array of strings; then saving button objects would fail to cast and reach the 500 path. The model follows the schema's evident intent instead: each element is a subdocument with `id`, `name`, `points` and `type`. It also leaves out the `_id` that Mongoose adds to each subdocument. The "exactly that list" claims of `ButtonsRoundTrip` and `PostButtons` hold under this reading only.
- Concurrency: last-writer-wins races between requests, and a points response that arrives after sign-out.
- JavaScript numbers: `Number` is `int`, and `parseInt` is left out (`CreateButton` receives the parsed amount). `Date.now()` is a parameter.
- Client plumbing: Firebase sign-in, sign-up and sign-out (App.js:75-112), with their email, password and error fields; the `fetch` calls; `localStorage` persistence (a saved list is an argument of the constructor); React effects; the form-toggle click at App.js:254; and all JSX.
- PointsClient.App.AuthStateChanged: does not model the `fetchPoints` request it starts for a signed-in user, which is network I/O. Its answer is modelled by `ReceivePoints`.
