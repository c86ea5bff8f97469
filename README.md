# ExpressJs-learn exercises, modelled in Dafny

This project models the three parts of the ExpressJs-learn exercises whose
behaviour can be stated.

1. **The raw HTTP server** (`01_web_server/server-node.js`). Its request
   handler maps the URL to a status, a `Content-Type` and a body. The model is
   the total function `WebServer.HandleRequest`.
2. **The in-memory tea API** (`02_express/index.js`).
   - The module-level array `teaData` and the counter `nextId` become the
     fields `teas: seq<Tea>` and `nextId` of the class `TeaApi.TeaStore`.
   - The class also has a ghost set `issued` of every id ever handed out.
   - The POST, GET, GET-by-id, PUT and DELETE `/teas` handlers are its
     methods. Each returns the status and body the handler sends.
   - `Array.prototype.find` and `filter` on ids are the functions
     `FindIndex` and `WithoutId`.
   - `parseInt` on the route parameter is `JsBuiltins.ParseInt`. It follows
     ECMAScript: leading whitespace, a sign, a `0x` prefix, the longest digit
     run, and NaN as `None`.
   - The morgan stream writer's split of the access-log line is
     `RequestLog.ToLogObject`, built on `JsBuiltins.Split`.
3. **The user controller of the auth backend**
   (`03_backenddesign/src/controllers/user.controllers.js`). The class
   `UserControllers.Controller` holds the user collection as a
   `map<UserId, User>`. Its methods are the token issuer
   (`generateAccessAndRefreshTokens`) and six handlers: register, login,
   logout, refresh, change password and update account details.
   - A ghost map `handedOut` records every refresh token issued to each user.
   - The invariant `Valid()` says a user's stored refresh token, if any, is
     the last one handed out to that user. Hence at most one refresh token
     per user is accepted, and any earlier one is rejected when replayed.
   - Some inputs come from outside the controller and are method parameters:
     - the tokens that JWT signing produces;
     - the user id that verifying the presented refresh token yields (`None`
       when verification throws);
     - what the upload helper gives back for each image: the hosted URL,
       null, or a rejection (the `Upload` datatype);
     - the fresh id the document store assigns.
   - The bcrypt hash and compare are functions fixed when the controller is
     built.

Two client methods are proved from the handlers' contracts alone. They
have no contracts of their own, so they get no row in the table.
- `TeaApi.CreateReadDeleteScenario` follows a tea from create to read-back to
  delete, on the route parameter "1". A following read is a 404, the next id
  is 2, and a PUT on the deleted id is a 404 that changes nothing.
  `ScenarioAt` and `AfterDelete` carry the same steps for any
  parameter that `parseInt` reads as 1.
- `UserControllers.SessionLifecycle` logs in and then refreshes. It then
  uses the recorded token history to show, through `ReplayRejected`, that
  replaying the first refresh token is rejected. It then logs out, and
  refreshes again (rejected).

The model follows the code where the code says two things at once:
- `registerUser` sends HTTP status 201 (user.controllers.js:96), while the
  `ApiResponse` body it sends carries 200 (line 97). The model records 201.
- The catch blocks at user.controllers.js:55-58 and 69-72 are reached
  only when removing the local temp file throws
  (03_backenddesign/src/utils/cloudinary.js:22, 25). An upload error alone
  makes the helper return null. `RegisterUser` models the code as written:
  a rejected upload gets its catch block's 500, a null avatar upload ends
  in the generic 500 of lines 119-122, and a null cover upload stores ""
  and answers 201. The handling those catch blocks were written for is
  `StoredImages` (see Findings).
- `logoutUser` clears the refresh token with `$set` of `undefined`
  (user.controllers.js:190-198). `LogoutUser` models the intended clearing,
  `LoggedOut`. What the document mapper makes of that update is covered
  under Findings and Left out.

## Model

| member | source | states |
|---|---|---|
| `WebServer.HandleRequest` | 01_web_server/server-node.js:6-20 | Content-Type is `text/plain` on every path. The status is 200 exactly when the URL is `/` or `/thanks`, with that route's text, and 404 with "Not Found" for every other URL. |
| `WebServer.ExactMatchOnly` | 01_web_server/server-node.js:7-19 | Matching is exact: a served URL followed by a trailing slash or a query string is a 404. |
| `JsBuiltins.TrimStart` | 03_backenddesign/src/controllers/user.controllers.js:32 | Removes only leading whitespace, and what remains does not start with whitespace. |
| `JsBuiltins.TrimEnd` | 03_backenddesign/src/controllers/user.controllers.js:32 | Removes only trailing whitespace, and what remains does not end with whitespace. |
| `JsBuiltins.TrimEmptyIffAllWhitespace` | 03_backenddesign/src/controllers/user.controllers.js:32 | `trim()` gives "" exactly when the field is all whitespace. |
| `JsBuiltins.Trim` | 03_backenddesign/src/controllers/user.controllers.js:32 | `trim()` never lengthens the string, and its result neither starts nor ends with whitespace. |
| `JsBuiltins.BlankIffTrimEmpty` | 03_backenddesign/src/controllers/user.controllers.js:32 | The registration blank-field test `!field?.trim()` holds exactly when the field is missing or `trim()` empties it. |
| `JsBuiltins.DigitPrefix` | 02_express/index.js:47 | The digit run `parseInt` reads is the longest prefix of radix digits. |
| `JsBuiltins.DecimalString` | 02_express/index.js:47 | The decimal form of an id, as a client writes it in the route, has only digits and no leading zero. |
| `JsBuiltins.DecimalStringValue` | 02_express/index.js:47 | The digits of the decimal form of n denote n. |
| `JsBuiltins.DigitPrefixOfDigits` | 02_express/index.js:47 | `parseInt` stops exactly where the digits end. |
| `JsBuiltins.ParseDecimalPrefix` | 02_express/index.js:47 | `parseInt` of an id's decimal form gives back the id, and so does that form followed by a non-digit (as in `12abc`). |
| `JsBuiltins.ParseInt` | 02_express/index.js:47 | A negative result comes only from a `-` as the first non-whitespace character. |
| `JsBuiltins.ParseWithoutDigits` | 02_express/index.js:47 | A route parameter with no decimal digit parses to NaN. |
| `JsBuiltins.Split` | 02_express/index.js:18-21 | `split(" ")` yields at least one piece and no piece contains a space. |
| `JsBuiltins.JoinSplit` | 02_express/index.js:18-21 | Joining the pieces with single spaces restores the line, so the split loses nothing. |
| `JsBuiltins.SplitWord` | 02_express/index.js:18-21 | A string without spaces splits into itself alone. |
| `JsBuiltins.SplitAfterWord` | 02_express/index.js:18-21 | A leading space-free word followed by a space is split off as the first piece. |
| `JsBuiltins.SplitJoin` | 02_express/index.js:18-21 | Splitting space-free pieces joined by spaces gives back those pieces. |
| `RequestLog.ToLogObject` | 02_express/index.js:17-22 | method is always set. A later field is set only if the ones before it are, and no field contains a space. |
| `RequestLog.SplitLength` | 02_express/index.js:18-21 | A log line with n spaces has n + 1 pieces. |
| `RequestLog.LeadingTokens` | 02_express/index.js:17-22 | The log object's method, url, status and responseTime are the first four space-separated tokens, whatever follows them. |
| `RequestLog.FieldsPresent` | 02_express/index.js:17-22 | method is always set. url, status and responseTime are set exactly when the line has at least 1, 2 or 3 spaces, and are `undefined` otherwise. |
| `TeaApi.FindIndex` | 02_express/index.js:47 | `find` returns the first record whose id equals the parsed id. It returns nothing exactly when no record has that id, and always nothing for NaN. |
| `TeaApi.WithoutId` | 02_express/index.js:73 | `filter` never lengthens the array. |
| `TeaApi.WithoutIdMembers` | 02_express/index.js:73 | The filter keeps exactly the records whose id differs from the parsed id. |
| `TeaApi.WithoutIdIncreasing` | 02_express/index.js:73 | The filter keeps ids strictly increasing along the array. |
| `TeaApi.WithoutAbsentId` | 02_express/index.js:73 | Filtering by an id no record has changes nothing. |
| `TeaApi.IncreasingUnique` | 02_express/index.js:69-73 | In the store's id order, the record `find` locates is the only one with that id. |
| `TeaApi.WithoutFoundId` | 02_express/index.js:69-73 | When only the record at i has the id, filtering by it removes just that record and keeps the others in their order. |
| `TeaApi.TeaStore.constructor` | 02_express/index.js:29-30 | The store starts empty with `nextId` 1 and no id issued. |
| `TeaApi.TeaStore.Create` | 02_express/index.js:33-39 | Create gives the new record id `nextId`, then increases `nextId` by exactly one. It appends the record, leaves the earlier records untouched, and sends it with 201. The new id was never issued before, so a deleted id is never reissued. It keeps the invariant: ids are unique and strictly increasing, and each is below `nextId`. |
| `TeaApi.TeaStore.List` | 02_express/index.js:41-43 | List sends 200 with all records in insertion order. |
| `TeaApi.TeaStore.Get` | 02_express/index.js:46-53 | Get sends 200 with the record whose id equals `parseInt(id)` exactly when one exists, and 404 "Tea not found" otherwise. A non-numeric parameter always gets 404. |
| `TeaApi.TeaStore.Update` | 02_express/index.js:56-65 | On a missing id, Update sends 404 and leaves the records and `nextId` unchanged. Otherwise it overwrites only that record's name and price, keeps its id and position, and sends the updated record with 200. |
| `TeaApi.TeaStore.UpdateKey` | 02_express/index.js:57-64 | The same as Update, for an already parsed id (or NaN). It keeps the store invariant. |
| `TeaApi.TeaStore.Delete` | 02_express/index.js:68-76 | On a missing id, Delete sends 404 and changes nothing. Otherwise it removes that record, keeps the others in order, and sends the removed record with 200. A following `find` for the id fails. `nextId` and the issued ids never change. |
| `TeaApi.TeaStore.DeleteKey` | 02_express/index.js:69-75 | The same as Delete, for an already parsed id (or NaN). Because ids are unique, the filter removes exactly the record `find` located. |
| `UserControllers.PresentedToken` | 03_backenddesign/src/controllers/user.controllers.js:213-214 | The presented token is the cookie when that is a non-empty string, else the body field. There is none when neither is a non-empty string. |
| `UserControllers.Rotated` | 03_backenddesign/src/controllers/user.controllers.js:16-18 | After a token pair is issued, that user's stored refresh token is the new one and nothing else about it changes. No user is added or removed, and every other user is unchanged. |
| `UserControllers.LoggedOut` | 03_backenddesign/src/controllers/user.controllers.js:190-198 | After logout, no token is accepted for that user and nothing else about it changes. No user is added or removed, and every other user is unchanged. |
| `UserControllers.LoggedOutAsWritten` | 03_backenddesign/src/controllers/user.controllers.js:190-198 | As written, with `undefined` keys stripped from the update: no user is added or removed, and exactly the tokens accepted before logout are accepted after it. |
| `UserControllers.LogoutAsWrittenKeepsToken` | 03_backenddesign/src/controllers/user.controllers.js:190-198 | Read that way, the refresh token a user held before logging out still refreshes after it, while the intended clearing rejects it. |
| `UserControllers.AtMostOneAccepted` | 03_backenddesign/src/controllers/user.controllers.js:15-18 | Because a single token is stored per user, at most one refresh token is accepted per user. |
| `UserControllers.RotationRevokesPrevious` | 03_backenddesign/src/controllers/user.controllers.js:231-241 | After a new pair is issued, the new refresh token is accepted and the previous one is rejected. Other users are unaffected. |
| `UserControllers.LogoutRevokesAll` | 03_backenddesign/src/controllers/user.controllers.js:190-198 | After logout, a refresh for that user fails with any token. Other users are unaffected. |
| `UserControllers.Taken` | 03_backenddesign/src/controllers/user.controllers.js:36-42 | The registration lookup finds a user exactly when the login lookup would, with both username and email given. |
| `UserControllers.LoginMatch` | 03_backenddesign/src/controllers/user.controllers.js:133-135 | A user matches only on its username or its email. An absent key matches nothing, so a lookup with neither key finds no one. |
| `UserControllers.StoredImagesAsWritten` | 03_backenddesign/src/controllers/user.controllers.js:51-81 | As written, registration goes on exactly when the avatar was uploaded and a sent cover's helper did not reject. A rejected avatar upload gives the avatar 500. Otherwise a rejected cover upload gives the cover 500, and then a null avatar gives the generic creation 500 (lines 119-122). On success the avatar is the uploaded one. The cover is the uploaded one when a cover was sent and uploaded, and "" in every other case. |
| `UserControllers.StoredImages` | 03_backenddesign/src/controllers/user.controllers.js:51-81 | An avatar upload that yields no URL is the avatar 500. A cover that was sent but yields no URL is the cover 500. Otherwise the stored avatar is the uploaded one, and the cover is the uploaded one, or "" when none was sent. |
| `UserControllers.CoverUploadFailureIgnored` | 03_backenddesign/src/controllers/user.controllers.js:60-81 | As written, a cover image whose upload returned null is stored as "" and registration goes on. The corrected definition answers 500. |
| `UserControllers.AvatarUploadFailureMisreported` | 03_backenddesign/src/controllers/user.controllers.js:51-58 | As written, an avatar upload that returned null ends in the generic creation 500. The corrected definition answers with the avatar message. |
| `UserControllers.AsWrittenAgreesUnlessNull` | 03_backenddesign/src/controllers/user.controllers.js:51-81 | When no requested upload returned null, the code as written and the corrected definition give the same result. This covers both success and a rejected helper. |
| `UserControllers.Controller.ReplayRejected` | 03_backenddesign/src/controllers/user.controllers.js:231-233 | Under the invariant, replaying any handed-out refresh token other than the latest one is rejected. |
| `UserControllers.Controller.GenerateAccessAndRefreshTokens` | 03_backenddesign/src/controllers/user.controllers.js:8-26 | For an existing user, the new refresh token overwrites the stored one, is appended to that user's history (and to nobody else's), and the pair is returned. An unknown user gets 500 and nothing changes. |
| `UserControllers.Controller.RegisterUser` | 03_backenddesign/src/controllers/user.controllers.js:28-124 | The checks run in order, as written. A blank field gives 400. Then a username or email already taken gives 409, before any upload. Then a missing avatar file gives 400. Then a rejected avatar upload gives the avatar 500, and a rejected cover upload the cover 500. A null avatar upload gives the generic creation 500. A null cover upload is stored as "" and the request still answers 201. Otherwise the user is stored with the hashed password, the image URLs and no refresh token, 201 is sent, and no earlier user shares its username or email. Every failure leaves the store unchanged. |
| `UserControllers.Controller.LoginUser` | 03_backenddesign/src/controllers/user.controllers.js:126-187 | Neither username nor email gives 400. No matching user gives 404, and only then. 401 only when a matching user's password check fails. On success, a matching user with the right password gets a new token pair. Its refresh token becomes that user's stored token and is appended to that user's history. Failures change nothing. |
| `UserControllers.Controller.LogoutUser` | 03_backenddesign/src/controllers/user.controllers.js:189-210 | Logout clears the user's stored refresh token, so no token is accepted for that user afterwards, and sends 200. |
| `UserControllers.Controller.RefreshAccessToken` | 03_backenddesign/src/controllers/user.controllers.js:212-261 | No presented token gives 401. A failed verify, lookup (the inner 404) or compare gives the same 401 and changes nothing. The call succeeds exactly when the presented token is the one stored on the verified user. It then rotates the stored token and appends the new one to the user's history, so replaying the presented token is rejected whenever the new token differs. |
| `UserControllers.Controller.ChangeCurrentPassword` | 03_backenddesign/src/controllers/user.controllers.js:263-283 | An unknown user fails with a non-API error. A wrong old password gives 400. Otherwise the hash of the new password is stored and 200 is sent. The accepted refresh tokens do not change. |
| `UserControllers.Controller.UpdateAccountDetails` | 03_backenddesign/src/controllers/user.controllers.js:291-311 | A missing or empty full name or email gives 400. Otherwise both are set on the user and 200 is sent with its profile, or with no data for an unknown id. |

## Findings

| source | as written | input that shows it | evidently intended | confidence | as-written member | corrected member |
|---|---|---|---|---|---|---|
| 03_backenddesign/src/controllers/user.controllers.js:60-72 | When an upload fails, `uploadOnCloudinary` removes the temp file and returns null (03_backenddesign/src/utils/cloudinary.js:24-28). The catch block meant to answer 500 "Failure uploading coverImage on cloudinary" is then skipped. It is reached only when removing the temp file throws (lines 22 and 25). The user is created with `coverImage: ""`. A null avatar upload likewise skips its own catch block and surfaces later as the generic 500 of lines 119-122. | a registration with a cover image whose upload fails and whose temp file is removed | a failed cover upload answers 500 with the cover-image message; a failed avatar upload answers 500 with the avatar message | medium, not executed | `UserControllers.StoredImagesAsWritten` (used by `UserControllers.Controller.RegisterUser`), exhibited by `UserControllers.CoverUploadFailureIgnored` and `UserControllers.AvatarUploadFailureMisreported` | `UserControllers.StoredImages`, which agrees with the code whenever no upload returns null (`UserControllers.AsWrittenAgreesUnlessNull`) |
| 03_backenddesign/src/controllers/user.controllers.js:190-198 | Logout sends `$set: { refreshToken: undefined }`. A document mapper that strips `undefined` keys from updates turns this into an empty update, as Mongoose does from version 6 on. The stored refresh token then stays valid after logout. The repository's Mongoose version is not part of this model. | logging out, then refreshing with the refresh token held before logout | logout revokes the stored refresh token (`$unset: { refreshToken: 1 }`) | low, depends on the Mongoose version; not executed | `UserControllers.LoggedOutAsWritten`, exhibited by `UserControllers.LogoutAsWrittenKeepsToken` | `UserControllers.LoggedOut` (used by `UserControllers.Controller.LogoutUser`), with `UserControllers.LogoutRevokesAll` |

## Left out

- Sockets, listening, cookies (set and cleared), `ApiResponse` formatting and all logging. The model only computes the status, payload and message. The `logger` call and the morgan format string are not modelled; only the field split is.
- `TeaApi.Tea`: name and price are a string and a real. The handlers store whatever JSON values arrive in the body, including `undefined`. The store never inspects them.
- `TeaApi.TeaStore.Create`: `nextId` is an unbounded integer. In JavaScript it is a double, which stops counting exactly past 2^53.
- `JsBuiltins.ParseInt`: gives the exact value of a long digit string. JavaScript rounds it to a double.
- `TeaApi.TeaStore.Update`: the handler writes the fields of the found object in place; the model replaces that element of the sequence. No other reference to the object outlives the request, so the two cannot be told apart.
- Interleaving of concurrent requests on the shared array: each handler runs atomically.
- Express route matching and URL decoding of `:id`: the handlers take the decoded parameter as a string.
- JWT signing, verification and expiry are left out. The signed tokens and the verified user id are parameters.
  - Whether two signings can yield the same token depends on the user schema, which is not part of this model. So `RefreshAccessToken` revokes the replayed token only when the new token differs, and says so.
- bcrypt hashing and comparison are the functions `hash` and `passwordMatches`, given to the controller's constructor. A missing password, which bcrypt rejects with an exception, is not modelled.
- Document-store details are left out:
  - how the ODM treats an `undefined` key in the login filter (the model: an absent key matches nothing);
  - the unique-index errors handled at user.controllers.js:101-109;
  - database failures (lines 88-93);
  - the uniqueness of emails after `updateAccountDetails`, which the controller does not check.
- The media host is left out: the uploads themselves, deleting local temp files, and the best-effort remote deletes at user.controllers.js:111-117. What the upload helper gives back (a URL, null, or a rejection when removing the temp file throws) is a parameter of type `Upload`; its own logic at 03_backenddesign/src/utils/cloudinary.js:13-29 is not modelled.
- `UserControllers.Controller.LogoutUser`: models the intended clearing of the stored refresh token. If the repository runs Mongoose 6 or later, `$set` of `undefined` at user.controllers.js:190-198 is stripped and logout revokes nothing. `LogoutRevokesAll` then does not hold of the program as written; `LoggedOutAsWritten` is that reading (see Findings).
- The login-type check at user.controllers.js:141 refers to `UserLoginType`, which is never imported, so at run time it throws. The model skips this check.
- Request bodies whose fields are not strings (where `trim` would throw a TypeError) are not modelled.
- The authentication middleware that sets `req.user` is not part of this model. The authenticated id is a parameter.
- `getCurrentUser` (user.controllers.js:285-289) only echoes `req.user`.
- `updateUserAvatar` and `updateUserCoverImage` (313-380) call helpers that are never imported and do file I/O.
- `getUserChannelProfile` and `getWatchHistory` (389-496) are database aggregation pipelines.
- `03_backenddesign/src/app.js`, `03_backenddesign/src/index.js` and the `recoil-app` front end are not part of this model: they are start-up wiring and UI. `03_backenddesign/src/utils/cloudinary.js` enters only through the `Upload` outcomes above.
