# mern-chat-app: request validation, accounts, conversations, upload and client retry

A Dafny model of the logic of a MERN chat application, stated as pure functions over immutable data:

- **Request schemas** (`Zod`, `UserValidation`, `MessageValidation`). This is the subset of zod the request schemas use:
  - an object of string fields, each a chain of `.trim()`, `.min`, `.max` and `.email` steps run in declaration order;
  - every issue is collected, and undeclared keys are stripped;
  - the seven schemas of the user and message routes are written out with their exact messages.
- **`JsString`**: JavaScript's `String.prototype.trim` and `.length`, which counts UTF-16 code units.
- **`validate(schema)`** (`ValidationMiddleware`): on success the parsed body replaces the request body. On failure it raises `ApiError(409, <first issue>)`.
- **Reply envelopes** (`Api`): `ApiError`, `ApiResponse` and the error middleware.
- **Account handlers** (`Accounts`): registration, login, logout, refresh-token rotation, password change, profile update and the password-reset token. Each is a transition over a sequence of user documents.
- **The message handlers** (`Conversations`): `sendMessage` finds or creates a conversation, appends the message id and pushes `newMessage` to the receiver's socket; `getMessages` reads a conversation back.
- **The upload middleware** (`Upload`): the MIME filter, the 5 MiB limit, and the disk file name.
- **The browser's response interceptor** (`ClientRetry`): one refresh and one replay on a first 403. After a failed refresh, the request resolves with react-router's redirect response to `/login`. Its callers are components rather than route loaders, so that response does not navigate anywhere.
- **Two routes end to end** (`Routes`): sending a message, and registering with an avatar.

Each operation comes with a partner property. The partner is either a reference predicate connected to it by an if-and-only-if lemma, an invariant it keeps (unique usernames, emails and phones; conversation consistency), or a round trip (re-validating accepted output; send then read; request then reset).

The model replaces these with parameters:

- the email format test (`emailOk`);
- token signing and verification (`decode`);
- password comparison (`matches`);
- the SHA-256 digest (`sha`);
- the image host's answer (`cloud`, `AvatarUpload`);
- whether the reset email went out (`emailSent`);
- the current time (`now`);
- `NODE_ENV`;
- the socket registry (a map from user id to socket id);
- what the server answers each client request (`serve`).

A user id is the user's position in the collection, and a message id is the message's position in the message collection.

## Model

| member | source | states |
|---|---|---|
| Basics.FirstIndex | backend/src/controllers/user.controller.js:301 | `findOne` returns the first document matching the filter; none is returned exactly when no document matches |
| JsString.Trim | backend/src/validations/user.validation.js:9 | `.trim()` gives a slice of the input with no trimmable character at either end |
| JsString.TrimIsTightSlice | backend/src/validations/user.validation.js:9 | the trim is `s[lo..hi]`; everything cut off is whitespace or a line terminator; the kept part is empty or starts and ends with a non-trimmable character |
| JsString.TrimOfTrimmed | backend/src/validations/user.validation.js:9 | a string that is empty or starts and ends with a non-trimmable character is its own trim |
| JsString.TrimIdempotent | backend/src/validations/user.validation.js:9 | trimming an already trimmed string changes nothing |
| JsString.TrimEmptyIff | backend/src/validations/message.validation.js:9-10 | the trim is empty exactly when every character is whitespace, so a whitespace-only value fails `min(1)` |
| JsString.Utf16Length | backend/src/validations/message.validation.js:10-11 | `.length` counts UTF-16 code units: between one and two per character, and zero only for the empty string |
| JsString.Utf16LengthOfBmp | backend/src/validations/message.validation.js:10-11 | for BMP-only text the bound is on the character count |
| JsString.Utf16LengthOfChar | backend/src/validations/message.validation.js:10-11 | a character above U+FFFF counts as two code units, any other as one |
| JsString.Utf16LengthAppend | backend/src/validations/message.validation.js:10-11 | the length of a concatenation is the sum of the lengths |
| Zod.RunChecks | backend/src/validations/user.validation.js:4-11 | a chain's output is the trimmed input as soon as it trims anywhere, and the raw input otherwise; each check raises at most one issue |
| Zod.ParseField | backend/src/validations/user.validation.js:5-8 | an absent key gives only `required_error`, and any non-string gives only `invalid_type_error`; no length issue is raised for either |
| Zod.AllIssues | backend/src/validations/user.validation.js:3-44 | the object raises no issue exactly when none of its declared fields does, so undeclared keys never cause a rejection |
| Zod.Output | backend/src/middlewares/validation.middleware.js:11 | the parsed object holds exactly the declared keys: undeclared keys are stripped and absent ones never appear |
| Zod.Parse | backend/src/middlewares/validation.middleware.js:11 | `parseAsync` succeeds exactly when no field raises an issue; a failure carries at least one issue; the output holds exactly the declared keys, each with its field's value |
| Zod.OutputValues | backend/src/middlewares/validation.middleware.js:11 | with distinct keys, each declared key of the output holds its own field's value |
| Zod.TrimmedOutput | backend/src/validations/user.validation.js:9-11 | in an accepted body every field of a trimming schema is the trim of the string sent |
| Zod.FirstIssueIsEarliest | backend/src/middlewares/validation.middleware.js:14 | `errors[0]` is the first issue of the earliest-declared field that has any issue |
| Zod.TrimmedBoundedIssues | backend/src/validations/user.validation.js:9-11 | a trim-min-max chain reports the min message exactly when the trimmed length is below `lo`, and the max message exactly when it is above `hi` |
| Zod.EmailShapedIssues | backend/src/validations/user.validation.js:25-27 | an email chain reports the format message from the raw string and the length message from the trimmed one, with no minimum |
| Zod.ReparseTrimFirstField | backend/src/validations/user.validation.js:9-11 | a field whose chain starts with `.trim()` accepts its own output back unchanged |
| Zod.ReparseIsIdentity | backend/src/validations/user.validation.js:9-11 | re-validating an accepted body with a schema whose every field starts with a trim gives the same body |
| UserValidation.BoundedFieldVerdict | backend/src/validations/user.validation.js:5-11 | a trimmed, bounded field reports the required, type, too-short and too-long messages in exactly the cases the reference predicate names |
| UserValidation.NameFieldsRule | backend/src/validations/user.validation.js:4-19 | `fullName` and `username` are accepted exactly when the trimmed length is in [4, 255], with their exact messages |
| UserValidation.PhoneFieldRule | backend/src/validations/user.validation.js:28-35 | `phone` is accepted exactly when the trimmed length is 10 |
| UserValidation.PasswordFieldsRule | backend/src/validations/user.validation.js:36-43 | `password`, `currentPassword` and both `newPassword` fields are accepted exactly when the trimmed length is in [6, 255] |
| UserValidation.EmailFieldRule | backend/src/validations/user.validation.js:20-27 | `email` is accepted exactly when the raw string passes the format test and the trimmed length is at most 255 |
| UserValidation.BoundedAccepts | backend/src/validations/user.validation.js:9-11 | a bounded field raises no issue exactly when its value meets the reference rule |
| UserValidation.EmailAccepts | backend/src/validations/user.validation.js:20-27 | the email field raises no issue exactly when its value meets the reference email rule |
| UserValidation.SignupAccepts | backend/src/validations/user.validation.js:3-44 | the signup schema accepts exactly the bodies whose five fields each meet their rule |
| UserValidation.SignupShape | backend/src/validations/user.validation.js:3-44 | signup declares five distinct keys and trims every field; every non-email field starts with the trim, and the email field starts with its format test |
| UserValidation.SignupOutput | backend/src/validations/user.validation.js:3-44 | an accepted signup yields exactly the five keys, each holding the trimmed string sent |
| UserValidation.UpdateProfileAccepts | backend/src/validations/user.validation.js:88-121 | the profile schema is the signup schema's first four fields, and accepts exactly the bodies whose four fields meet the signup rules |
| UserValidation.UpdateProfileShape | backend/src/validations/user.validation.js:88-121 | the profile schema declares exactly `fullName`, `username`, `email` and `phone` |
| UserValidation.UpdateProfileOutput | backend/src/validations/user.validation.js:88-121 | an accepted profile update yields exactly the four keys, trimmed |
| UserValidation.LoginAccepts | backend/src/validations/user.validation.js:46-63 | the login schema accepts exactly the bodies whose email meets the email rule and whose password trims to 6 to 255 code units |
| UserValidation.ResetPasswordRequestAccepts | backend/src/validations/user.validation.js:123-132 | a reset request is accepted exactly when its email meets the email rule |
| UserValidation.SignupFullNameFirst | backend/src/validations/user.validation.js:4-11 | whenever the full name raises any issue, the signup reply is refused with the full name's first issue, whatever else is wrong |
| UserValidation.SignupFirstMessage | backend/src/validations/user.validation.js:4-18 | a missing, non-string or too-short full name is answered with its own message (required, type, lower bound); with a good full name, a too-short username is answered with the username's lower-bound message |
| UserValidation.PasswordSchemasTrimFirst | backend/src/validations/user.validation.js:65-86 | the change-password and reset-password schemas declare distinct keys and start every chain with a trim |
| UserValidation.PasswordSchemasReparse | backend/src/validations/user.validation.js:65-86 | outputs of the change-password and reset-password schemas validate again to themselves |
| UserValidation.NonEmailFieldsReparse | backend/src/validations/user.validation.js:9-11 | each non-email signup field accepts its own output unchanged |
| MessageValidation.SingleFieldParse | backend/src/validations/message.validation.js:3-12 | the message schema reports exactly the issues of its one field |
| MessageValidation.MessageIssues | backend/src/validations/message.validation.js:9-11 | a string message raises the required message when its trim is empty and the 255 message when its trim is longer |
| MessageValidation.MessageRejections | backend/src/validations/message.validation.js:5-11 | missing gives "Message is required."; non-string gives "Message must be a string."; whitespace-only gives "Message is required."; a trim over 255 gives the 255 message |
| MessageValidation.MessageAcceptance | backend/src/validations/message.validation.js:9-11 | a message is accepted exactly when it is a string whose trim is 1 to 255 code units, and the output is that trim |
| MessageValidation.MessageReparse | backend/src/validations/message.validation.js:9-11 | an accepted message validates again to itself |
| Api.ApiResponse | backend/src/utils/ApiResponse.js:7-13 | `success` is true, message and data are kept verbatim, and data is absent when none is given |
| Api.ErrorHandler | backend/src/middlewares/error.middleware.js:3-16 | an `ApiError` is answered with its own status and exactly `{success: false, message}`; anything else gets 500 with "Internal server error." and no `success` |
| Api.Complete | backend/src/controllers/user.controller.js:88-91 | a handler's response keeps its status, message and data under `success: true`, which no error reply carries; a thrown `ApiError` keeps its status and message under `success: false`; any other throw is a 500 "Internal server error." with no `success` |
| Api.SuccessKeySeparates | backend/src/utils/ApiError.js:11 | `success` is true exactly on replies built from `ApiResponse` |
| Api.OtherErrorTextHidden | backend/src/middlewares/error.middleware.js:12 | two non-`ApiError`s with different texts get the same reply |
| Api.StackOnlyInDevelopment | backend/src/middlewares/error.middleware.js:13 | a stack is present exactly for a non-`ApiError` when `NODE_ENV` is "development"; otherwise it is null or the key is absent |
| ValidationMiddleware.Validate | backend/src/middlewares/validation.middleware.js:8-17 | the request continues exactly when parsing succeeds, carrying the parsed body; otherwise it gets `ApiError(409, first issue)` and the body is left unchanged |
| ValidationMiddleware.Guarded | backend/src/middlewares/validation.middleware.js:11-12 | the handler's outcome is returned only on a parsed body; a rejected body gives a 409 throw |
| ValidationMiddleware.RejectionSkipsHandler | backend/src/middlewares/validation.middleware.js:13-16 | a rejected body gets a 409 whose message is the first issue of the earliest failing field, whichever handler is behind it |
| Upload.Join | backend/src/middlewares/multer.middleware.js:33 | `join` gives the empty string, the single element, or text that starts with the first element |
| Upload.InvalidTypeMessageText | backend/src/middlewares/multer.middleware.js:33-39 | the rejection message names image/jpeg, image/png and image/gif in that order |
| Upload.FileFilter | backend/src/middlewares/multer.middleware.js:26-37 | a listed MIME type is accepted; any other type is an `ApiError` 400 with the joined-type message |
| Upload.Single | backend/src/middlewares/multer.middleware.js:12-19 | no file passes; a stored file keeps its original name in the temp directory |
| Upload.SingleVerdict | backend/src/middlewares/multer.middleware.js:6 | a file under the expected field is stored exactly when its type is one of the three images and it is at most 5,242,880 bytes; a wrong type is a 400 with the message; an oversized one is a 500 |
| Upload.UnexpectedFieldRefused | backend/src/middlewares/multer.middleware.js:42-46 | a file under another field is refused, with an error that is not an `ApiError` |
| Accounts.Register | backend/src/controllers/user.controller.js:48-88 | the username, email, phone, avatar and upload checks run in that order and the first failure is thrown; exactly one user with the uploaded URL is appended only when all pass, answered 201 |
| Accounts.RegisterKeepsUnique | backend/src/controllers/user.controller.js:48-64 | registration keeps usernames, emails and phone numbers unique |
| Accounts.Login | backend/src/controllers/user.controller.js:100-119 | login replaces that user's record by the same record with the newly issued refresh token and nothing else changed, leaves every other user alone, and sets both cookies |
| Accounts.Logout | backend/src/controllers/user.controller.js:127-140 | logout replaces the caller's record by the same record with the refresh token unset, touches no one else and clears both cookies |
| Accounts.Refresh | backend/src/controllers/user.controller.js:148-191 | a refresh that fails changes nothing; a missing or empty cookie is a 401; success sets both new cookies |
| Accounts.RefreshVerdict | backend/src/controllers/user.controller.js:150-173 | a refresh succeeds exactly for a token that verifies to an existing user who holds that very token; success replaces that user's record by the same record with the new refresh token and leaves everyone else alone; every failure after a verified signature is a 401 |
| Accounts.RotationRejectsOldToken | backend/src/controllers/user.controller.js:166-168 | after rotation, the old token is refused with 401 |
| Accounts.LogoutRevokes | backend/src/controllers/user.controller.js:128-134 | after logout, no token of that user refreshes |
| Accounts.LoginThenRefresh | backend/src/controllers/user.controller.js:114-117 | the refresh token a login issues refreshes the session |
| Accounts.ChangePassword | backend/src/controllers/user.controller.js:209-222 | a wrong current password is a 400 "Old password is incorrect." and changes nothing; otherwise only the password is replaced |
| Accounts.ChangePasswordFrame | backend/src/controllers/user.controller.js:218-219 | a password change leaves every other user and every other field alone |
| Accounts.UpdateProfile | backend/src/controllers/user.controller.js:230-290 | the username, email and phone conflicts are checked in order; with none of them, a failed upload throws the 500 upload error; a throw changes nothing |
| Accounts.ClashIff | backend/src/controllers/user.controller.js:235-256 | a conflict is reported exactly when the new value differs from the caller's own and someone holds it; in a unique store that someone is another user |
| Accounts.UpdateProfileEffect | backend/src/controllers/user.controller.js:258-289 | a successful update replaces the caller's record by the same record with the four fields written and the avatar replaced by a non-empty uploaded URL (kept otherwise), so password, tokens and reset fields are unchanged; other users are left alone and the reply carries what was written |
| Accounts.UpdateProfileKeepsUnique | backend/src/controllers/user.controller.js:235-256 | profile updates keep usernames, emails and phone numbers unique |
| Accounts.ResetHolder | backend/src/controllers/user.controller.js:348-351 | the user found holds the digest with an expiry strictly after `now`; none is found exactly when no user does |
| Accounts.EmailHolder | backend/src/controllers/user.controller.js:301-304 | the user found has the email; none is found exactly when the email is unregistered |
| Accounts.ResetPasswordRequest | backend/src/controllers/user.controller.js:298-329 | an unknown email is a 404 that changes nothing; otherwise the first user with that email gets the token digest and expiry, every other field and user stays as it was, and the reply depends only on whether the email went out |
| Accounts.ResetPassword | backend/src/controllers/user.controller.js:337-362 | a failed reset is a 400 that changes nothing; a success answers "Password reset successfully." |
| Accounts.ResetPasswordVerdict | backend/src/controllers/user.controller.js:342-359 | a reset succeeds exactly when some user holds the token's digest with an expiry strictly after `now`; that user gets the new password and both reset fields cleared, and no one else changes |
| Accounts.ResetIsSingleUse | backend/src/controllers/user.controller.js:356-359 | a token that reset a password fails a second time, at any time |
| Accounts.RequestThenReset | backend/src/controllers/user.controller.js:307-308 | after a request, the token resets exactly while `now` is before its expiry, and it is the requester whose password changes, whether or not the email went out |
| Conversations.FindAll | backend/src/controllers/message.controller.js:20-22 | the `$all` lookup returns the first conversation listing both users; none is returned exactly when no conversation does |
| Conversations.FindPair | backend/src/controllers/message.controller.js:20-22 | the corrected lookup returns the first conversation of exactly the two users, in either order |
| Conversations.LookupSymmetric | backend/src/controllers/message.controller.js:20-22 | A to B and B to A resolve to the same conversation, under either lookup |
| Conversations.FindAllIsFindPair | backend/src/controllers/message.controller.js:20-22 | for two different users in two-party conversations, the `$all` lookup is the exact-pair lookup |
| Conversations.SendWith | backend/src/controllers/message.controller.js:25-50 | a send stores exactly one message with the given sender, receiver and text, and answers 201 with it |
| Conversations.SendMessage | backend/src/controllers/message.controller.js:14-51 | the model's send stores the message and answers 201 with it, whether or not a push happens |
| Conversations.SendMessageAsWritten | backend/src/controllers/message.controller.js:14-51 | the source's send does the same |
| Conversations.SendMessageMatchesSource | backend/src/controllers/message.controller.js:20-22 | for two different users the two sends coincide |
| Conversations.SendStoreEffect | backend/src/controllers/message.controller.js:25-40 | an existing conversation is reused and only its id list grows, by the new id at the end; otherwise one conversation is created; no other conversation changes |
| Conversations.SendEffects | backend/src/controllers/message.controller.js:42-46 | `newMessage` is emitted exactly when the receiver has a socket id, after the message is created and the conversation saved; a conversation is created exactly when none was found |
| Conversations.SendWithStoreEffect | backend/src/controllers/message.controller.js:25-40 | for whichever conversation the lookup found, that conversation alone gains the new id at the end; with none found one conversation is appended; no other conversation changes |
| Conversations.SendWithEffects | backend/src/controllers/message.controller.js:42-46 | whatever the lookup found, `newMessage` is emitted exactly when the receiver has a socket id, after the message is created and the conversation saved, and a conversation is created exactly when none was found |
| Conversations.SendAsWrittenEffects | backend/src/controllers/message.controller.js:20-46 | the handler as written, with its `$all` lookup, appends the id to the conversation that lookup finds or creates one, and emits exactly when the receiver has a socket id |
| Conversations.Populate | backend/src/controllers/message.controller.js:59 | populating returns only stored messages, never more than there are ids |
| Conversations.PopulateAllPresent | backend/src/controllers/message.controller.js:59 | when every id exists, populating keeps order and length |
| Conversations.GetMessages | backend/src/controllers/message.controller.js:53-72 | reading always answers 200, with an empty list when no conversation exists |
| Conversations.GetMessagesAsWritten | backend/src/controllers/message.controller.js:57-65 | the source's read does the same |
| Conversations.MoreMessagesKeepOk | backend/src/controllers/message.controller.js:32-36 | storing a message keeps every existing id valid |
| Conversations.AppendKeepsOk | backend/src/controllers/message.controller.js:39-40 | appending the new id of a message between the participants keeps the conversation consistent |
| Conversations.SendKeepsConsistent | backend/src/controllers/message.controller.js:14-51 | sending keeps every id valid and every message between its conversation's participants |
| Conversations.ReadOnlyOwnMessages | backend/src/controllers/message.controller.js:53-72 | in a consistent store, a read returns only messages between the caller and the other user |
| Conversations.FindPairAt | backend/src/controllers/message.controller.js:20-22 | the first conversation of a pair is found wherever it sits |
| Conversations.SendFindsTarget | backend/src/controllers/message.controller.js:20-40 | after A writes to B, the pair lookup in either order finds the conversation written to |
| Conversations.SendThenRead | backend/src/controllers/message.controller.js:14-72 | after A writes to B, B's read ends with that message, and B's reply goes into the same conversation |
| Conversations.GetMessagesMatchesSource | backend/src/controllers/message.controller.js:57-59 | for two different users and two-participant conversations, the source's `$all` read answers exactly what the exact-pair read answers |
| Conversations.SendAsWrittenKeepsConsistent | backend/src/controllers/message.controller.js:14-51 | the source's send between two different users keeps a consistent store consistent |
| Conversations.ReadAsWrittenOnlyOwnMessages | backend/src/controllers/message.controller.js:53-72 | in a consistent store, the source's read between two different users returns only messages between them |
| Conversations.SendThenReadAsWritten | backend/src/controllers/message.controller.js:14-72 | through the source's handlers, after A writes to a different user B, B's read for A ends with that message |
| Conversations.SelfMessageLeaksAsWritten | backend/src/controllers/message.controller.js:20-22 | with `$all`, user 1's note to self lands in the conversation of users 1 and 2; user 2 reads it, and the store is no longer consistent |
| Conversations.SelfMessageStaysPrivate | backend/src/controllers/message.controller.js:25-29 | with the exact-pair lookup, the same note opens a conversation of its own, and user 2 reads nothing |
| ClientRetry.Handle | frontend/src/api/axios.js:15-32 | at most one refresh; a retried request is sent once; the request is sent twice exactly after a successful refresh; the promise resolves with a redirect response to "/login" only after a failed refresh |
| ClientRetry.HandleVerdict | frontend/src/api/axios.js:16-31 | 2xx passes through; another error or a 403 on a retried request is rejected unchanged; a first 403 refreshes, then replays and settles as the replay; a failed refresh resolves with a redirect response to "/login" |
| ClientRetry.AtMostOneRefresh | frontend/src/api/axios.js:20-21 | a request triggers at most one refresh and at most two sends, and never redirects after a successful refresh |
| Routes.SendMessageRoute | backend/src/routes/message.route.js:9-13 | the route runs the handler as written, `$all` lookup included; a body the schema rejects is answered 409, stores nothing and pushes nothing |
| Routes.SendMessageRouteVerdict | backend/src/routes/message.route.js:9-13 | through the handler as written, a message is stored exactly when its trim is 1 to 255 code units, and the stored and returned text is the trim; a whitespace-only message gets 409 "Message is required." with no effect |
| Routes.RegisterValidated | backend/src/controllers/user.controller.js:67-88 | a 201 means an avatar was stored and uploaded, and exactly one user is appended with the parsed fields; anything else leaves the store alone |
| Routes.RegisterRoute | backend/src/routes/user.route.js:12-17 | a registration answers 201 exactly when the upload passes, the signup schema accepts the body and the handler answers 201 on the parsed body; a refused upload is answered with its own error and a refused body with 409 and the first issue, before the handler runs; only a 201 changes the store |
| Routes.RegisterChecksFileTypeFirst | backend/src/routes/user.route.js:12-17 | an avatar of a disallowed type is a 400 with the type message, before the body is validated |
| Routes.RegisterRouteStoresTrimmed | backend/src/routes/user.route.js:12-17 | a successful registration appends one user holding the trimmed fields and keeps uniqueness |

## Left out

- The socket registry and presence broadcast. `backend/src/socket/socket.js` is not part of this model; the receiver's socket id comes from a map given as a parameter.
- MongoDB and Mongoose I/O. Collections are sequences, an id is a position, and `findOne` is "first match". Whatever indexes and field options `user.model.js` declares are not modelled, because that file is not part of this model.
- Password hashing and comparison. The pre-save hashing hook is not part of this model, so passwords are stored as given. `isPasswordCorrect` is the parameter `matches`.
- JWT signing and verification are the parameter `decode`. Random reset-token generation and SHA-256 are the parameters `token` and `sha`.
- `generateAccessAndRefreshTokens` failing (its 500) is not modelled; the issued tokens are parameters.
- Cookie options and expiry times (`ms`, `Date.now`) are left out. Cookies are modelled only as set or cleared, with their values.
- The Cloudinary upload, deletion of the temp file, and nodemailer. Their outcomes are the parameters `cloud`, `AvatarUpload` and `emailSent`.
- The reset email text and URL are left out; only whether it was sent matters to the reply.
- `getCurrentUser`, `getUsersForSidebar` and `searchUsers` are read-only queries and are not modelled; `searchUsers` builds a regular expression from user input.
- `verifyJwt` and passport's local strategy are left out. Handlers take the authenticated caller's id, and login takes the id the credential check found.
- Request bodies that are not JSON objects are out of scope: `Body` is always a map.
- The refresh call that the interceptor itself makes is treated as a single success or failure. The model does not pass it back through the interceptor.
- The React UI and the server wiring, apart from the two routes modelled end to end.
- Concurrency and async interleavings: every handler runs to completion on its own.
- The zod email regular expression is the parameter `emailOk`.
- Logging: `console.log(err)` in the error handler (`backend/src/middlewares/error.middleware.js:4`) and `console.log(req.user)` in `updateUserProfile` (`backend/src/controllers/user.controller.js:232`) only write to the console and change no reply.
- A second file under `avatar` makes multer refuse the request as an unexpected file; `file: Option<FilePart>` carries at most one file, so that case is not stated.
- Malformed ids: a `:id` parameter or `_id` that is not an ObjectId makes Mongoose throw a cast error, which the error handler answers with a 500. Ids here are positions, so that error is not modelled.
- JsString.Trim and JsString.Utf16Length work on `seq<char>`, whose elements are Unicode scalar values, so a string holding a lone surrogate such as `"\ud800"` (a JavaScript string of length 1) cannot be stated.
- Upload.Join: states only the empty, single-element and prefix cases; the full three-element message is pinned by `Upload.InvalidTypeMessageText`.
- Accounts.Refresh: a token whose signature is refused raises the library's own error, which becomes a 500. The contract states only that such a failure changes nothing; `Accounts.RefreshVerdict` covers the 401 cases.
- Conversations.Populate: ids without a stored message are dropped, which is what `populate` does with dangling references; the order is stated only when every id exists.
- ClientRetry.Handle: a request that got no response at all crashes the interceptor, because it reads `error.response.status` of an undefined response. This is modelled as `Crashed`, not as a rejection.

## Findings

| source | as written | input that shows it | evidently intended | confidence | as-written member | corrected member |
|---|---|---|---|---|---|---|
| backend/src/controllers/message.controller.js:20-22 | the lookup `participants: {$all: [senderId, receiverId]}` matches any conversation that lists the sender, when sender and receiver are the same user | user 1 sends "note to self" to user 1 while a conversation of users 1 and 2 exists: the note is pushed into that conversation, and user 2's `getMessages` for user 1 returns it | the conversation whose participants are exactly the two users | medium; not executed | Conversations.SelfMessageLeaksAsWritten | Conversations.SelfMessageStaysPrivate |
