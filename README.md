# EasyChat message delivery and translation, in Dafny

A model of the server core of EasyChat, a direct-messaging app that can
rewrite each incoming message into its reader's preferred language:

- **records.dfy** (`Records`): the documents and events the core handles —
  `Message`, `User`, `Language`, the `View` a reader receives (a record plus
  an optional `isTranslated` field), the socket.io `Event`s, and `Outcome`
  (an external service's answer or failure) and `Result` (a controller's
  `{success, ...}` response).
- **translator.dfy** (`Translator`): the fail-soft facade over Google
  Translate. The client is a `Service` value whose fields are the answers
  it would give (`detect`, `translate`, `languages`), each of which may be
  `Fail`. JavaScript's `String.prototype.trim` is modelled with its exact
  whitespace set, and `trim() === ''` is proved to mean "all whitespace".
- **presence.dfy** (`Presence`): the `Hub` class, holding `userSocketMap`, its
  keys in insertion order (the order `Object.keys` lists MongoDB ObjectId
  keys in), and the log of every event `io` emitted.
  The connection and disconnection handlers are its methods.
- **users.dfy** (`Users`): the user collection (`UserStore`), with signup's
  validation and insert, `updateProfile`'s partial update, and the
  supported-languages endpoint.
- **messages.dfy** (`Messages`): the message collection (`MessageStore`),
  the conversation filter, unseen counts, seen marking, the translated
  views, and the four message controllers.

Conventions of the model:

- An optional string that the code only tests for truthiness (message
  text, image payload, profile picture) is a `string`, with `""` standing
  for both `undefined` and empty, which the code treats alike. A field
  tested with `!== undefined` (bio, full name, preferred language in
  `updateProfile`) is an `Option<string>`. So is the handshake `userId`,
  because `delete userSocketMap[undefined]` deletes the key `"undefined"`.
- Collections are sequences in insertion order. A Mongo query is a function
  over that sequence, and a write reassigns it.
- Schema defaults assumed for the models that are not part of this model
  (`models/Message.js`, `models/User.js`): a new message has `seen = false`;
  a new user has `preferredLanguage = "default"` and an empty
  `profilePic`. Message and user ids are unique. The store hands out message
  ids in increasing order. A new user id is a fresh id passed in.
- When the requester (`getMessages`) or the receiver (`sendMessage`) is
  missing from the user store, reading its `preferredLanguage` throws, and the
  controller answers with failure. In `sendMessage` this happens after the
  message is stored, so the message stays stored and nothing is pushed.

## Model

| member | source | states |
|---|---|---|
| `Translator.TrimEmptyIffBlank` | server/lib/translator.js:15 | `text.trim() === ''` holds exactly when every character is JavaScript whitespace |
| `Translator.DetectLanguage` | server/lib/translator.js:13-23 | blank text gives `en` whatever the detector would say; otherwise the detector's language, or `en` when it fails |
| `Translator.TranslateText` | server/lib/translator.js:32-57 | returns the input for blank text, for target `default`, and when the source language equals the target, whatever the translator would say. A falsy source language is replaced by the detected one. The result is the input or the translator's answer for (text, source, target), and the input whenever the translator fails |
| `Translator.FallbackLanguages` | server/lib/translator.js:70-84 | the fallback catalogue has 13 entries with distinct codes, the first being `default` |
| `Translator.SupportedLanguages` | server/lib/translator.js:63-86 | the service's list when it answers; the 13-entry catalogue starting with `default` when it fails |
| `Translator.SomeHasCode` | server/lib/translator.js:96 | true iff some entry of the list has the code |
| `Translator.IsLanguageSupported` | server/lib/translator.js:93-101 | true iff some supported language has the code; with the service down, iff the fallback catalogue has it |
| `Translator.DefaultSupportedOnFailure` | server/lib/translator.js:68-71 | with the service down, `default` is a supported code |
| `Presence.Without` | server/server.js:60-61 | deleting a key drops exactly that key from the key list, keeps the list duplicate-free, and changes nothing when the key is absent |
| `Presence.WithoutKeepsOrder` | server/server.js:60-61 | deleting the key at position k of the key list leaves exactly the keys before and after it, in their order |
| `Presence.PropertyKey` | server/server.js:60 | the key deleted is the handshake's `userId`; a missing one is coerced to `"undefined"` |
| `Presence.Hub.constructor` | server/server.js:47 | the registry starts empty, with no events |
| `Presence.Hub.Connect` | server/server.js:50-56 | a truthy `userId` is bound to the socket, overwriting any earlier binding; a new key goes to the end of the key list, an existing one keeps its place. Otherwise the map is unchanged. One `getOnlineUsers` broadcast of exactly the keys follows |
| `Presence.Hub.Disconnect` | server/server.js:58-62 | the connection's `userId` key is deleted whichever socket it is bound to; an absent key changes nothing; one broadcast of exactly the remaining keys follows |
| `Presence.Hub.DisconnectIfCurrent` | server/server.js:58-62 | corrected handler: the key is deleted only while it is bound to this connection's socket; the broadcast is as before |
| `Presence.Hub.Lookup` | server/controllers/messageController.js:151 | finds a socket exactly when the user is a key of the map, and returns its binding |
| `Presence.Hub.EmitNewMessage` | server/controllers/messageController.js:153 | appends one `newMessage` event to the socket; the presence map is unchanged |
| `Presence.StaleDisconnect` | server/server.js:54-61 | connect u on socket 1, connect u on socket 2, close socket 1: u is offline, and the three broadcasts list [u], [u], [] |
| `Presence.StaleDisconnectIfCurrent` | server/server.js:54-61 | the same events with the corrected handler leave u online on socket 2 |
| `Presence.TwoUsers` | server/server.js:54-61 | A connects, B connects, A leaves: exactly B is online, and the broadcasts list [A], [A, B], [B] |
| `Users.FindById` | server/controllers/messageController.js:121-122 | finds a user with that id exactly when one is stored |
| `Users.FindsByEmail` | server/controllers/userController.js:15-17 | true exactly when some stored user has the email |
| `Users.SignupError` | server/controllers/userController.js:12-19 | "Missing Details" exactly when a required field is missing; otherwise "Account already exists" exactly when the email is taken; otherwise no error |
| `Users.Patched` | server/controllers/userController.js:71-81 | each of bio, full name, preferred language and picture takes the supplied value, or keeps its own when not supplied; id, email and password never change |
| `Users.UpdatedById` | server/controllers/userController.js:77 | the update rewrites the users with that id and no others |
| `Users.UserStore.Signup` | server/controllers/userController.js:8-35 | on either error the store is unchanged and the error is the validation's. Otherwise exactly one user is appended, with the hashed password and the schema defaults. Ids and emails stay unique |
| `Users.UserStore.UpdateProfile` | server/controllers/userController.js:63-88 | only the supplied fields change; the picture becomes the upload URL, and only when one is given. A failed upload changes nothing. An unknown id changes nothing and answers `null`. Ids and emails stay unique |
| `Users.GetSupportedLanguagesController` | server/controllers/userController.js:91-99 | always succeeds, with the service's list or the fallback catalogue |
| `Messages.Conversation` | server/controllers/messageController.js:36-41 | holds exactly the stored messages between the two users, and no more messages than the store |
| `Messages.ConversationAppend` | server/controllers/messageController.js:36-41 | the filter distributes over concatenation: store order is kept, and a new message comes last |
| `Messages.ConversationSymmetric` | server/controllers/messageController.js:36-41 | both participants get the same conversation |
| `Messages.UnseenCount` | server/controllers/messageController.js:17-18 | positive exactly when some message from the sender to the receiver is unseen |
| `Messages.UnseenCountAppend` | server/controllers/messageController.js:113-118 | storing a new unseen message adds one to its own (sender, receiver) count and nothing to any other |
| `Messages.MarkedSeen` | server/controllers/messageController.js:77 | bulk marking keeps the number of messages |
| `Messages.MarkedSeenAt` | server/controllers/messageController.js:77 | every peer-to-me message ends up seen; no other field of it changes; every other message is unchanged |
| `Messages.MarkedSeenIdempotent` | server/controllers/messageController.js:77 | marking twice equals marking once |
| `Messages.MarkedSeenClearsUnseen` | server/controllers/messageController.js:77 | after a fetch, the peer's unseen count for the reader is 0, so the sidebar omits it |
| `Messages.MarkedSeenKeepsOtherCounts` | server/controllers/messageController.js:77 | every other pair's unseen count is unchanged by the fetch |
| `Messages.SeenById` | server/controllers/messageController.js:91 | marking by id keeps the number of messages |
| `Messages.SeenByIdAt` | server/controllers/messageController.js:91 | the message with the id becomes seen and is otherwise unchanged; every other message is unchanged |
| `Messages.SeenByUnknownId` | server/controllers/messageController.js:91 | an id that is not stored changes nothing |
| `Messages.SeenByIdIdempotent` | server/controllers/messageController.js:91 | marking an id twice equals marking it once |
| `Messages.Retranslation` | server/controllers/messageController.js:57-61 | no translation exactly when the detected language is the target. Otherwise the result is the translator's answer for (text, detected, target); it is the original text when the text is blank or the translator fails |
| `Messages.ReaderView` | server/controllers/messageController.js:52-73 | a message not addressed to the reader, or without text, is returned as stored with no `isTranslated`. `isTranslated` is present exactly when the detected language differs from the reader's, and is then true iff the text changed. An inbound non-blank text whose detected language differs carries the translator's answer when it succeeds. It keeps the original when the text is blank or the translator fails. Only the text ever changes |
| `Messages.ReaderViews` | server/controllers/messageController.js:51-74 | one view per message, in order |
| `Messages.ConversationViews` | server/controllers/messageController.js:47-75 | a reader whose preference is `default` gets the stored records unchanged; any other reader gets the per-message views |
| `Messages.ReceiverText` | server/controllers/messageController.js:124-141 | the original text when the receiver's preference is `default`, the text is empty or blank, the detected language is the preference, or the translator fails. Otherwise it is the translator's answer for (text, detected, preference) |
| `Messages.ReceiverCopy` | server/controllers/messageController.js:143-148 | the stored record with only its text possibly replaced; `isTranslated` is always present and true iff the text changed. When a translation is due and succeeds, the copy carries the translator's answer |
| `Messages.PushMatchesFetch` | server/controllers/messageController.js:55-66 | for a receiver whose preference is not `default`, the same stored record and the same translator answers, the fetch callback yields the push copy's record, and the same `isTranslated` whenever the fetch view has one |
| `Messages.MessageStore.Create` | server/controllers/messageController.js:113-118 | appends exactly one unseen message, whose id is the next one and differs from every stored id; the next id advances by one |
| `Messages.MessageStore.UpdateManySeen` | server/controllers/messageController.js:77 | the store becomes the bulk-marked store; ids stay increasing |
| `Messages.MessageStore.FindByIdAndUpdateSeen` | server/controllers/messageController.js:91 | the store becomes the id-marked store; ids stay increasing |
| `Messages.Others` | server/controllers/messageController.js:12 | exactly the stored users other than the requester |
| `Messages.GetUsersForSidebar` | server/controllers/messageController.js:9-28 | the map has a key for u exactly when u is a stored user other than the requester with at least one unseen message to the requester; its value is that count |
| `Messages.GetMessages` | server/controllers/messageController.js:31-85 | answers the views of the conversation as it was before the call, then marks every peer-to-me message seen. A missing requester fails with nothing marked |
| `Messages.MarkMessageAsSeen` | server/controllers/messageController.js:88-97 | always succeeds, and the store becomes the id-marked store |
| `Messages.ImageUrl` | server/controllers/messageController.js:106-110 | no image gives no URL, without calling the upload; otherwise the upload's URL, or its error when it fails |
| `Messages.SendMessage` | server/controllers/messageController.js:100-163 | a failed upload fails and changes nothing. Otherwise exactly one unseen message with the original text and image URL is stored, and that record is returned. The receiver's copy is pushed iff the receiver has a (truthy) socket. A missing receiver fails after storing, without a push |

## Findings

| source | as written | input that shows it | evidently intended | confidence | as-written member | corrected member |
|---|---|---|---|---|---|---|
| server/server.js:60 | `delete userSocketMap[userId]` removes the user's entry whichever socket it is bound to | user u connects on socket 1, reconnects on socket 2, then socket 1's disconnect fires: u is reported offline while socket 2 is open | delete the entry only while it still belongs to the closing socket, so a reconnect survives the old socket's disconnect | high, not executed | `Presence.StaleDisconnect` | `Presence.StaleDisconnectIfCurrent` |

The `Hub.Disconnect` method reproduces the code as written. `Hub.DisconnectIfCurrent` is the corrected handler. No controller in this model calls either.

## Left out

- Presence.Hub.Connect: the key list grows in insertion order, which is what `Object.keys` gives for MongoDB ObjectId strings. Ids that are array indices (such as "1"), which `Object.keys` lists first in numeric order, and `"__proto__"`, which creates no key, are not modelled.
- Messages.PushMatchesFetch: compares the two code paths on one stored record, one preference and one translator. A real later fetch is a separate request: the translator may answer differently, the receiver may have changed `preferredLanguage` through `updateProfile`, and `seen` may have been flipped since; none of that is covered.
- Presence.TwoUsers: its broadcast order [A, B] holds for ObjectId user ids only, for the reason given in the previous line.
- Express, CORS, route mounting, `connectDB`, `server.listen` and the HTTP framing of responses: I/O plumbing. A response is a `Result`; console logging is dropped.
- `login`, `checkAuth` and JWT `generateToken`: not part of the message core. Signup's token is not modelled.
- Socket.io transport: an emit is an `Event` appended to the hub's log. Delivery, acknowledgement and a failing push are not modelled.
- Google Translate, Cloudinary and bcrypt: modelled as parameters (a `Service` value, an `upload` function, a `hash` function with its salt). A service is a function, so it gives the same answer to the same query every time within one request.
- Failures of MongoDB queries and writes, and a malformed id's `CastError`: ids are typed, and the database always answers.
- `Promise.all` concurrency in `getUsersForSidebar` and `getMessages`: each task touches its own key or element, so the loops run one after the other. Interleavings of concurrent requests are not modelled.
- The `users` field of the sidebar answer is `filtered` without its password projection (`select("-password")`).
- `createdAt`/`updatedAt` timestamps and the `toObject()` shape beyond the fields above.
- `isLanguageSupported`'s `catch` branch and the `catch` blocks around detection in the controllers: the translator's functions never throw, so these branches cannot run.
- `null` values for `bio`, `fullName` or `preferredLanguage` in `updateProfile`: strings only.
- client/src/pages/ProfilePage.jsx is not part of this model. It repeats the fallback catalogue of the translator on the client side.
- `Users.UserStore.Signup`: the stored password is the hash function's output. That it differs from the plain text rests on bcrypt and is not stated.
