# Whisper server core in Dafny

This project models two parts of the Whisper chat server and proves properties of them.

The first part is passwordless login by one-time code. `sendOTP` takes an email or a phone and looks up the user who owns it. It then stores a six-digit code for that user, valid for five minutes. `verifyOTP` checks a submitted `(userId, code)` pair against the code store. It then either marks an existing user verified ("Logged in") or creates a new user from a name and password ("Registered"). On success it deletes every code of that `userId` and signs a seven-day session token.

The second part is the chat store. `getChats` returns every chat. `sendMessage` appends `{text, sender: 'me', time}` to one chat, sets its `lastMessage` to the text and its `time` to `'Now'`, and saves it.

Files, one module each:

- `outcomes.dfy` (`Outcomes`): `Option` and `Result`.
- `decimal.dfy` (`Decimal`): the decimal numeral of a natural number, for the six-digit code.
- `user_model.dfy` (`UserModel`), from `server/models/User.js`.
  - The user record.
  - The `verified` default.
  - Validation: `password` is required.
  - The unique sparse indexes on `email` and `phone`.
  - `User.create` as a checked insert.
- `otp_model.dfy` (`OtpModel`), from `server/models/OTP.js`.
  - The code record and the expiry test.
  - `findOne` as "first match in natural order".
  - `deleteMany`.
  - The TTL sweep.
- `auth.dfy` (`Auth`), from `server/controllers/auth.js`.
  - The class `AuthService` holds the user map and the code sequence.
  - Its methods `SendOtp` and `VerifyOtp` change them in place.
- `chat_model.dfy` (`ChatModel`), from `server/models/Chat.js`.
  - The message and chat records, with their schema defaults and validation.
  - `Appended`: the chat after one send.
- `chat.dfy` (`ChatController`), from `server/controllers/chat.js`.
  - The class `ChatStore` holds the chat sequence.
  - It has `GetChats` and `SendMessage`.

Abstracted inputs:

- The clock is `now: int`, in milliseconds. `verifyOTP` reads it twice: once for the expiry test, and again later when jwt signs the token. The second reading is `signNow`, with `now <= signNow`.
- `crypto.randomInt(100000, 999999)` is `random`, with that range as a precondition.
- The id that `User.create` assigns is `newId`.
- `bcrypt.hash(_, 10)` is the function parameter `hash`.
- `jwt.sign` with the server secret is the function parameter `sign`, applied to the claims.
- `toLocaleTimeString` is the opaque string `time`.
- Request-body fields that may be missing are `Option<string>`.
- JavaScript truthiness (`!email`, `!name`) is `NonEmpty`: a missing value and `""` both count as falsy.

How the source's defects are modelled. The model follows the source as written.

- The missing `mongoose` import. For a handle that no user has, `sendOTP` evaluates `new mongoose.Types.ObjectId()` at `auth.js:18`. `mongoose` is never imported in that file, so the request ends in an uncaught ReferenceError before anything is written. `SendOtp` returns `Err(Unhandled(MongooseNotDefined))` and leaves both stores unchanged.
- The passwordless temporary user. Even with the import fixed, the `new User({ _id })` saved at `auth.js:21-22` has no password, and `User.js:8` requires one. The ensures of `TempUser` states that this document fails validation.
- As written, then, `sendOTP` only ever issues codes to users who already exist. On an empty user store it always fails.
- The create branch of `verifyOTP`. This branch runs only when the submitted `userId` has no user record. The predicate `OtpsOwned` says every code belongs to a stored user, which is what `ref: 'User'` means. `VerifyOtp` preserves it. While it holds, that method can only reject the code or answer "Logged in".
- The create branch is still modelled in full. It needs a name and a password. It hashes the password and inserts a new user under `newId`, the id `User.create` generates. A generated ObjectId is fresh, so `VerifyOtp` requires `newId != userId`. The token is signed for `newId`, and its `userId` claim is provably not the submitted `userId`. The codes deleted are still those of the submitted `userId`.
- A new code can be rejected. Codes are not unique, and verification looks only at the first record matching the user and code. So a fresh code is refused when an older record of the same user has the same digits and has expired, but the TTL sweep has not yet removed it. `IssuedCodeVerifies` proves a code just sent logs the user in when no such record exists. `StaleDuplicateRejectsFreshCode` shows a concrete rejection.
- A write that throws is modelled as `Err(Unhandled(...))` with no state change. Such writes are a failed validation or a duplicate `_id`, email or phone in `User.create`. Nothing in `auth.js` catches these errors.
- `sendMessage` does no text validation: missing or empty text is appended as given, and the sender is always the literal `'me'`.

## Model

| member | source | states |
|---|---|---|
| Decimal.ValueOfToString | server/controllers/auth.js:26 | reading back the decimal string of `n` gives `n` |
| Decimal.ToStringLength | server/controllers/auth.js:26 | a number in [10^k, 10^(k+1)) has exactly k+1 digits |
| Auth.IssueCode | server/controllers/auth.js:26 | for a draw in [100000, 999999) the code is exactly six decimal digits with no leading zero, and it denotes the draw |
| UserModel.NewUser | server/models/User.js:5-9 | a new document keeps the supplied fields, and `verified` is false when not supplied |
| UserModel.TempUser | server/controllers/auth.js:19-22 | the temporary user is unverified and has no handle; it fails validation because the password is required |
| UserModel.Insert | server/models/User.js:6-8 | `create` succeeds exactly when the document has a password and no `_id`, email or phone clash; it fails with a validation error exactly when the password is missing; on success the store gains exactly that user and keeps the store invariant |
| UserModel.MarkVerifiedKeepsStoreValid | server/controllers/auth.js:66-67 | setting `verified` and saving keeps ids, passwords and unique handles intact |
| OtpModel.FindFirst | server/controllers/auth.js:45 | `findOne({userId, code})` returns the first matching record, and none exactly when no record matches |
| OtpModel.DeleteMany | server/controllers/auth.js:71 | after `deleteMany({userId})` no record of that user remains, and every other record keeps its number of copies |
| OtpModel.OtherUserUnaffected | server/controllers/auth.js:71 | deleting one user's codes does not change whether another user's code is admitted, nor which record is admitted |
| OtpModel.Sweep | server/models/OTP.js:10 | the TTL sweep at time t keeps exactly the records not yet expired at t, with their number of copies |
| OtpModel.Admit | server/controllers/auth.js:45-48 | a code is admitted iff its first match exists and has `expiresAt >= now`; rejected iff there is no match or the first match has expired |
| OtpModel.AdmittedAtExpiryInstant | server/controllers/auth.js:46 | a record whose `expiresAt` equals `now` is still admitted |
| OtpModel.FreshCodeAdmitted | server/controllers/auth.js:29-46 | a record just added is admitted until it expires, provided no older record with the same user and code has expired |
| OtpModel.ExpiredDuplicateShadowsFreshCode | server/controllers/auth.js:45-46 | an expired older record with the same digits is found first, so a fresh record behind it is rejected |
| OtpModel.NothingAdmittedAfterDelete | server/controllers/auth.js:45-71 | after a user's codes are deleted, no code of that user is admitted at any time |
| OtpModel.SweepKeepsAdmission | server/models/OTP.js:10 | a TTL sweep at any time before `now` never rejects a code that would be admitted, and the same record is admitted |
| OtpModel.SweptAdmissionIsSound | server/models/OTP.js:10 | whatever the sweep removed, an admitted record is a matching and unexpired record of the store |
| OtpModel.SweepCanUnshadowDuplicateCode | server/models/OTP.js:4-10 | two records may share user and code; when the first has expired, the unswept store rejects the code and the swept store admits it |
| Auth.SessionClaims | server/controllers/auth.js:74-78 | the token claims name the user's own id and email; `iat` is the current second and `exp` is seven days later |
| Auth.AuthService.FindUserByHandle | server/controllers/auth.js:16 | returns a stored user whose email or phone equals the submitted one, or none exactly when no user matches |
| Auth.AuthService.SendOtp | server/controllers/auth.js:9-39 | with no email and no phone it fails with the 'Email or phone is required' error; it succeeds iff a user matches a handle and then returns that user's id; on success it appends exactly one record `{userId, code, now + 300000}` and keeps earlier codes; the user store never changes; errors leave both stores unchanged; the ownership invariant is preserved |
| Auth.AuthService.VerifyOtp | server/controllers/auth.js:42-85 | fails with 'Invalid or expired OTP' iff no code is admitted, changing nothing; an existing user gets only `verified := true` and "Logged in"; a missing user without name or password gets 'Name and password required' and keeps its codes; a missing user with both is inserted under the new id, with `verified` true and the hashed password, and gets "Registered"; the token claims use the stored user's id, which for a new user is not the submitted `userId`; every success deletes all codes of the submitted `userId`; store validity is kept; with every code owned, only rejection or "Logged in" can happen |
| Auth.IssuedCodeVerifies | server/controllers/auth.js:26-67 | after a successful sendOTP, submitting that code within five minutes logs the existing user in, unless an older expired record of that user has the same digits |
| Auth.StaleDuplicateRejectsFreshCode | server/controllers/auth.js:29-47 | a concrete run: a user with an expired code 123456 is sent 123456 again, and verifying it inside its five minutes gives 'Invalid or expired OTP' |
| Auth.ResubmittedCodeIsRejected | server/controllers/auth.js:45-71 | after a successful verification no code of that id is left, and the same code for the same id is rejected at any later time |
| ChatModel.NewMessage | server/models/Chat.js:7-10 | a message's `time` is the supplied one, or the creation-time clock string when none is supplied |
| ChatModel.NewChat | server/models/Chat.js:13-19 | a new chat has no messages, and `unread` is 0 unless supplied |
| ChatModel.Appended | server/controllers/chat.js:21-23 | the old messages are a prefix, one message `{text, 'me', time}` is added, `lastMessage` equals the text of the final message, `time` is 'Now', id, name, avatar and unread are unchanged, and message validity (the sender enum) is kept |
| ChatModel.AppendAllKeepsHistory | server/models/Chat.js:16 | after any sequence of sends, the original messages are a prefix, the new messages are in send order, and the summary matches the last send |
| ChatController.FindChat | server/controllers/chat.js:18 | `findById` returns the position of a chat with that id, or none exactly when no chat has it |
| ChatController.ChatStore.GetChats | server/controllers/chat.js:4-11 | returns every stored chat, in store order, whoever the caller is |
| ChatController.ChatStore.SendMessage | server/controllers/chat.js:13-30 | an unknown id gives 'Chat not found' and no change; otherwise only that chat becomes `Appended(...)`, every other chat is unchanged, and the response is exactly the updated chat; validity is kept |

## Left out

- Ids are opaque naturals. A malformed `userId` or `chatId` string makes Mongoose throw a CastError, and that path is not modelled.
- The request fields `userId` and `code` of `verifyOTP` are taken as present. Depending on the Mongoose version, an `undefined` key is dropped from a query filter, so a request without `code` could match any code of the user. That path is not modelled.
- In the same way, the `$or` lookup of `sendOTP` is "email equals, or phone equals". A handle that was not submitted matches nothing, even though Mongoose may drop it from the filter.
- Values that JSON allows, such as `null` or a number where a string is expected, are not modelled: Mongoose casts or indexes them differently.
- Auth.AuthService.SendOtp: does not state "a user with a fresh id is created for an unknown handle", because the source as written never reaches that step (see above). The model states the error outcome instead.
- OtpModel.DeleteMany: states the number of copies of each remaining record but not their relative order. The ordering that matters, the record a later `findOne` returns, is stated by `OtherUserUnaffected`.
- Scan order: the stores are sequences, and the model assumes `findOne`, `findById` and `find({})` scan them in insertion order. MongoDB does not promise a scan order. What depends on it is the first-match behaviour of `Admit`, the "same record" halves of `OtherUserUnaffected` and `SweepKeepsAdmission`, the two shadowing witnesses, and the order `GetChats` returns.
- Auth.AuthService.FindUserByHandle: when the email matches one user and the phone another, it returns either one. Which one Mongo returns depends on its natural order.
- The `console.log` of the code, the SMS helper (never called by `sendOTP`) and the HTTP response plumbing are left out. The error constructors carry the response messages in comments.
- The TTL sweep is modelled as a function that can be applied at any time. The background timing of the real sweep and any partial sweep are not modelled.
- ChatController.ChatStore.SendMessage: the response is the chat as modelled. The fields Mongoose adds to every document are not modelled: each pushed message's own `_id` and the chat's `__v` version key, both of which `res.json(chat)` returns.
- The `createdAt` and `updatedAt` timestamps (the `timestamps: true` option) are left out. They depend on the clock and nothing reads them.
- `bcrypt` and `jwt` are function parameters. The model says nothing about salt randomness, hash strength or signature checking.
- `getChats` and `sendMessage` answer 500 on a store failure. Store failures (connectivity, cast errors) are not modelled.
- Express route wiring and `authMiddleware` are not part of this model. `server/middleware/auth.js` is not part of this model.
- The client (`client/src/App.js`) is not modelled. Its verify call sends `phoneNumber`, while `auth.js:43` reads `phone`, so a phone given at registration is dropped.
- Concurrency is left out: each method is atomic, so there are no races between parallel `sendOTP` or `verifyOTP` calls.
- Chat record fields are modelled as optional strings. `unread` is an `int`: JavaScript numbers are floating point, and fractional values are not modelled.
