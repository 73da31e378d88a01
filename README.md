# vybe-social-backend, modelled in Dafny

This project models the decision logic of the vybe-social backend: an Express and
Socket.IO server for a small social network with posts, follows, chat and voice or
video calls.

**What is modelled**

- **Call signalling** (`Chat.ChatHub`): the `rooms` table that initiate-call, accept-call,
  decline-call, end-call, the no-answer timer, WebRTC signal relay and the disconnect sweep
  act on. Also the per-conversation `typingUsers` sets, and presence.
- **Messaging**: the read and unread bookkeeping of messages and conversations, and the
  send_message pipeline with its commit point.
  - The socket handlers are methods of one hub object. The hub holds both tables plus an
    `outbox`, the sequence of emits the handlers send.
  - A connection's own state (its joined rooms and its active conversation) is a separate
    `Chat.Connection` object.
- **Collections** (`Store.Database`): the MongoDB collections the controllers touch (users,
  posts, comments, messages, conversations, notifications). They are maps from ids to
  documents, held in one object whose fields the handlers reassign.
- **Authentication controller** (`Auth`): the password rule list, then signup, login and
  token refresh as early-return decision chains.
- **User controller** (`Users`): the follow toggle with its counters and notification, the
  profile update (field stripping, the profile-picture rule, the schema's casts, trims and
  validators, and the unique username), and the user search.
- **Post controller** (`Posts`): the like toggle, comments, and the personalised feed. The
  feed's paging includes a model of JavaScript's `parseInt`.
- **Authentication middleware** (`AuthMiddleware`): where the token comes from, and how the
  result of verifying it becomes a 401 answer or the user id.
- **Error middleware** (`ErrorMiddleware`): how an error object becomes a status and a JSON
  body.
- **CORS origin check** (`Cors`): the allow-list plus the two preview-deployment patterns.

**Outside effects**

Outside effects are parameters of the model:

- JWT verification is a function `string -> JwtOutcome`.
- bcrypt comparison is a function `(string, string) -> bool`. bcrypt hashing is a given
  hash string.
- Fresh document ids are given ids.
- Database faults are flags or a `Fault` value.
- `io` being available is a flag.
- The development environment is a flag.
- The search pattern match is a function `Account -> bool`.
- JavaScript's `Number(s)` on a body value is a function `string -> Option<int>` (None for NaN), and
  whether Mongoose's Date cast accepts a string is a function `string -> bool`.
- The order in which a query returns documents is a given sequence.

**Id strings**

An id string is a valid ObjectId when it has 24 hexadecimal digits. Casting it prints it back
in lower case (`Common.Canonical`). Documents are looked up, and references stored, by the
cast id. A room name or an event payload that the handler copies from the request keeps the
id as sent.

**Where the code and its intended behaviour part**

Where the code and the behaviour its authors describe part ways, the model follows the code,
except for the two defects listed under "## Findings": each has an as-written member and a
corrected one, and the handlers use the corrected one.

- Disconnect marks the user offline even when the user has another live connection.
- mark_message_read takes one off the conversation's unread counter on every call while the
  counter is positive, whoever reads and however often.
- A message sent to a conversation id that names no conversation is still committed. The
  post-commit step then fails the acknowledgement (`ConversationNotFound`).
- The message notification's `conversation` key is not in the notification schema and is
  dropped.

## Model

| member | source | states |
|---|---|---|
| Common.Canonical | controllers/userController.js:66 | casting a valid id and printing it back keeps its length and validity, turns each upper-case hex letter into its lower-case letter (code point + 32) and keeps every other character |
| Common.CanonicalIdempotent | controllers/userController.js:66 | casting an already cast id again changes nothing |
| Common.AddToSet | controllers/chatController.js:257-260 | `$addToSet` leaves the array unchanged when the element is present and appends it exactly once otherwise; the result holds exactly the old elements plus the new one |
| Common.AddToSetKeepsDistinct | controllers/chatController.js:257-260 | `$addToSet` keeps a duplicate-free array duplicate-free |
| Common.Pull | controllers/userController.js:65 | `pull` removes every occurrence of the element and keeps all other elements |
| Common.PullKeepsDistinct | controllers/userController.js:66 | pulling from a duplicate-free array keeps it duplicate-free |
| Common.Toggle | controllers/postController.js:79-84 | pull when present, push otherwise: membership of the toggled element flips, every other element keeps its membership |
| Common.ToggleTwice | controllers/postController.js:79-84 | toggling twice restores the membership of every element |
| Common.ToggleKeepsDistinct | controllers/postController.js:79-84 | toggling keeps a duplicate-free array duplicate-free |
| Common.FirstOther | controllers/chatController.js:149 | the first element different from x, with everything before it equal to x; None exactly when every element equals x |
| Common.LexLeqTotal | controllers/chatController.js:101 | the string order used by `sort()` relates every two ids one way or the other |
| Common.LexLeqAntisymmetric | controllers/chatController.js:101 | two ids ordered both ways are equal |
| Common.Trim | models/User.js:4-17 | the schema's `trim`: what is removed at either end is whitespace, what is kept neither starts nor ends with whitespace, and the result is empty iff the string is all whitespace |
| Common.TrimIdempotent | models/User.js:4-17 | trimming a trimmed name changes nothing |
| Chat.RoomIdOf | controllers/chatController.js:101 | the room id is the two ids in sort order joined by '-' |
| Chat.RoomIdSymmetric | controllers/chatController.js:101 | initiate(a, b) and initiate(b, a) name the same room |
| Chat.RoomIdDeterminesPair | controllers/chatController.js:101 | for ids without '-', the room id determines the unordered pair of users |
| Chat.SignalTarget | controllers/chatController.js:145-161 | a signal goes to the first participant other than the sender, only when that participant is truthy and the call is ongoing; otherwise nothing is relayed |
| Chat.RingingRelaysNothing | controllers/chatController.js:145-161 | in a room still ringing no signal is relayed, whoever sends it |
| Chat.OngoingRelaysToCounterpart | controllers/chatController.js:145-161 | in an accepted call the caller's signals reach the callee and the callee's reach the caller |
| Chat.SweepNoticesSnoc | controllers/chatController.js:429-434 | the call-ended emits of a sweep grow by one room's emits per room ended |
| Chat.HandshakeIdentity | controllers/chatController.js:53-69 | the socket is bound to the cast (lower-case) form of the token's valid userId; a missing token, a failed verification or an invalid userId refuses it; a payload without a userId gets a fresh id |
| Chat.Connection.constructor | controllers/chatController.js:95 | a new connection has no active conversation and has joined only its user's room |
| Chat.Connection.JoinConversation | controllers/chatController.js:222-229 | leaving the previous truthy active conversation, then joining and focusing the new one, keeps the active conversation among the joined rooms |
| Chat.Connection.JoinRoom | controllers/chatController.js:174-177 | join-call-room adds the room and changes nothing else |
| Chat.Connection.JoinPersonalRoom | controllers/chatController.js:179-183 | join joins the lower-cased cast id, a fresh id for a missing argument, and nothing for an id that does not cast |
| Chat.ChatHub.constructor | controllers/chatController.js:16-22 | the hub starts with no rooms, no typing sets and no emits |
| Chat.ChatHub.Connect | controllers/chatController.js:79-83 | the connecting user's document, when it exists, is marked online and records the socket id; nothing else changes |
| Chat.ChatHub.InitiateCall | controllers/chatController.js:99-123 | the pair's room is (over)written as ringing with the caller as sole participant, and the caller and callee are told |
| Chat.ChatHub.AcceptCall | controllers/chatController.js:125-135 | an absent room changes nothing; otherwise the status becomes ongoing, the callee is appended, and both sides are told |
| Chat.ChatHub.EndCall | controllers/chatController.js:163-172 | an absent room changes nothing; otherwise every participant entry is told once, in order, and the room is deleted |
| Chat.ChatHub.DeclineCall | controllers/chatController.js:137-139 | decline-call ends the room with reason "declined" |
| Chat.ChatHub.HangUp | controllers/chatController.js:141-143 | end-call ends the room with reason "ended" |
| Chat.ChatHub.NoAnswerTimeout | controllers/chatController.js:118-122 | the timer ends the call with reason "no-answer" only while the room exists and still rings |
| Chat.ChatHub.RelaySignal | controllers/chatController.js:145-161 | exactly one emit to SignalTarget when there is one, none otherwise; no state changes |
| Chat.ChatHub.Typing | controllers/chatController.js:232-240 | the user joins the conversation's typing set, which is created if missing, and the rest of the room is told |
| Chat.ChatHub.StopTyping | controllers/chatController.js:242-249 | only an existing typing set loses the user, and only then is the room told |
| Chat.ChatHub.ClearTypingOf | controllers/chatController.js:421-427 | every typing set loses the user; exactly the conversations the user was typing in are told, once each |
| Chat.ChatHub.EndCallsOf | controllers/chatController.js:429-434 | exactly the rooms the user takes part in are ended, once each, with reason "disconnected"; the other rooms stay |
| Chat.ChatHub.Disconnect | controllers/chatController.js:406-435 | the user is marked offline and its socketId is unset, then no typing set and no room contains the user, and nothing else changes |
| Chat.ChatHub.MarkMessageRead | controllers/chatController.js:252-289 | an unknown or invalid message id stops the handler; otherwise, looking both ids up by their cast, the reader is added to readBy, the room named as sent is told, and the counter drops by one only while positive |
| Chat.ChatHub.MarkConversationRead | controllers/chatController.js:292-323 | for a valid id, every message of the cast conversation not sent or read by the reader gains the reader, the counter is reset to 0, and the participants are told |
| Chat.ChatHub.SendMessage | controllers/chatController.js:325-404 | checks before any write; a failure before the commit changes nothing; the new message, stored under the cast conversation id, is read by its sender only; that conversation's counter grows by one; failures after the commit still acknowledge "error" |
| Chat.ChatHub.NotifyAndAcknowledge | controllers/chatController.js:365-394 | after the commit the other participant gets a message notification, every participant is told, and the ack carries the message |
| Chat.ChatHub.SendNotification | controllers/chatController.js:185-217 | the requested notification is stored and pushed to the receiver's room (named as sent) exactly when it is well formed; otherwise nothing changes |
| Chat.StartConversation | controllers/chatController.js:481-497 | an existing conversation holding the caller and the cast other id is returned unchanged; otherwise one with a zero counter is created for that pair |
| Chat.MarkConversationReadRest | controllers/chatController.js:499-526 | the REST read does the socket read's bulk update and reset on the cast id, answering 200, or 500 with no change for an invalid id |
| Messages.ConversationUpdatedNotices | controllers/chatController.js:312-319 | only conversation-updated emits to participants whose user document exists, at most one per participant entry |
| Messages.ConversationUpdatedNoticesInOrder | controllers/chatController.js:312-319 | the emits follow the participants' order: a split list gives its parts' emits in turn, and one participant gets exactly one emit iff its document exists |
| Messages.MarkAllRead | controllers/chatController.js:295-310 | exactly the conversation's messages that the reader neither sent nor had read gain the reader and the read flag; all others are unchanged |
| Messages.MarkAllReadIdempotent | controllers/chatController.js:295-310 | reading a conversation twice is the same as reading it once |
| Messages.MarkedRead | controllers/chatController.js:257-260 | the single read flags the message read and adds the reader to readBy at most once, keeping every other field |
| Messages.MarkedReadIdempotent | controllers/chatController.js:257-260 | re-reading a message changes nothing more |
| Messages.MarkAllReadIsSingleReads | controllers/chatController.js:295-310 | the bulk read acts on each affected message as a single read does |
| Messages.ReadDecrement | controllers/chatController.js:273-275 | the counter drops by one exactly when positive, so it never goes negative |
| Messages.ResetUnread | controllers/chatController.js:308-310 | the conversation read sets the counter to 0 and keeps the rest |
| Messages.RecordSent | controllers/chatController.js:345-353 | a send makes the message the last one and raises the counter by exactly one |
| Messages.ReadUndoesSend | controllers/chatController.js:273-275 | a single read right after a send restores the counter |
| Messages.RepeatedReadDecrementsTwice | controllers/chatController.js:273-275 | the same message read twice takes two off the counter |
| Messages.UnreadNeverNegative | controllers/chatController.js:273-275 | no sequence of sends, single reads and conversation reads makes the counter negative |
| Messages.SendsOnlyCount | controllers/chatController.js:349 | with no reads in between, the counter grows by the number of messages sent |
| Messages.CountAfterConversationRead | controllers/chatController.js:308-310 | after a conversation read, the counter equals the number of later sends |
| Messages.MessagePreview | controllers/chatController.js:375 | the preview is the first 20 characters in quotes, followed by an ellipsis |
| Messages.AckStatus | controllers/chatController.js:394-400 | the acknowledgement's status is "success" exactly for a sent message |
| Messages.SendPrecheck | controllers/chatController.js:332-343 | a missing conversation or empty content, then an id that does not cast, then content over 2000 characters, stop send_message before any write |
| Messages.RequestedNotification | controllers/chatController.js:185-217 | a notification is built exactly for a valid receiver id, a valid or absent post id and a schema kind, storing the cast receiver and post ids |
| Store.ParseKind | models/Notification.js:6-35 | only the schema's four type names parse, and each parses back to its name |
| Auth.Rank | controllers/authController.js:8-14 | each requirement's place in the rule list |
| Auth.MessagesDistinct | controllers/authController.js:8-14 | different requirements have different messages |
| Auth.FailedFrom | controllers/authController.js:16-17 | the filter keeps exactly the failed requirements, in list order |
| Auth.Messages | controllers/authController.js:18 | the map replaces each requirement by its message, position by position |
| Auth.ValidatePassword | controllers/authController.js:7-19 | a requirement's message is reported iff the password fails it; the result is empty iff the password is strong; at most five messages, none repeated |
| Auth.MessageIn | controllers/authController.js:16-18 | a message is in the result exactly when its requirement failed |
| Auth.StrongMeetsAll | controllers/authController.js:9-13 | the direct statement of a strong password is the conjunction of the five rules |
| Auth.ValidatePasswordOrdered | controllers/authController.js:16-18 | failed requirements' messages come out in rule-list order |
| Auth.CookieLifetimesAgree | controllers/authController.js:67 | the signup, login and refresh cookies all live 604800000 ms, the token's seven days |
| Auth.NewAccount | controllers/authController.js:53-59 | the new user has the trimmed names, the email as given, the hashed password, the schema defaults for bio, profilePic and socketId, and empty follow lists with zero counters |
| Auth.SignupStatus | controllers/authController.js:30-83 | 201 exactly for success, 500 for a server error, 400 for the three refusals |
| Auth.Signup | controllers/authController.js:30-83 | email taken, then the trimmed username taken, then a weak password each refuse with no write; an absent password or a failed save is a 500; otherwise exactly the new user is added |
| Auth.SignupKeepsUsernamesUnique | controllers/authController.js:39-43 | a signup that passes the trimmed username check keeps usernames unique |
| Auth.Login | controllers/authController.js:86-127 | an unknown email is refused under email, a mismatch under password; with unique emails, login succeeds iff the password matches the stored hash |
| Auth.RefreshToken | controllers/authController.js:164-207 | no cookie means "Token required"; a failed verification or an invalid id means INVALID_TOKEN; otherwise the user with the cast id must exist, and the new token names that id |
| Users.ApplyFollow | controllers/userController.js:64-78 | the user's following and the target's followers flip membership together, each counter equals its list's length, and no other document changes |
| Users.FollowStep | controllers/userController.js:60-78 | the toggle on the cast target id: the target leaves following if present and joins it otherwise |
| Users.FollowStepAsWritten | controllers/userController.js:60-78 | as written: the membership test compares the stored lower-case ids with the target id as sent, while the pull and push use the cast id; so the cast id ends up followed iff the id as sent was not in the list, and it is appended even when already present |
| Users.AsWrittenAgreesOnPrintedIds | controllers/userController.js:60-78 | for a target id sent in lower case, the toggle as written and the corrected one agree |
| Users.FollowStepKeepsPairConsistent | controllers/userController.js:64-78 | after the toggle, the user's following and the target's followers agree about the pair |
| Users.FollowTwiceRestores | controllers/userController.js:64-78 | following then unfollowing (or the reverse) restores both lists' membership |
| Users.FollowUser | controllers/userController.js:33-111 | the corrected handler: invalid ids give 400 before any lookup; a missing user gives 404; a fault gives 500; none of these changes anything; otherwise the toggle on the cast id, and a notification only when following |
| Users.IsUploadPath | controllers/userController.js:181-185 | the profile picture must be "/uploads/" followed by one or more characters that are not line terminators |
| Users.Strip | controllers/userController.js:175-179 | the copy of the body without password, email and role, other keys unchanged |
| Users.UserPathType | models/User.js:3-59 | the schema type of each user path: trimmed strings, plain strings, Booleans, ObjectId arrays, Numbers and the Date |
| Users.CastBoolean | models/User.js:33-48 | a Boolean path accepts "true", "1", "yes" as true and "false", "0", "no" as false, and nothing else |
| Users.UpdatedFields | controllers/userController.js:187-191 | each string path the update names takes its value, trimmed for fullName and username; other fields are kept |
| Users.UpdatedIds | controllers/userController.js:187-191 | a follow list set from a string becomes the one-element list of its cast id |
| Users.UpdatedCount | controllers/userController.js:187-191 | a counter set from a string takes the number it casts to |
| Users.ApplyUpdate | controllers/userController.js:187-191 | every schema path the update names takes its cast value, including the follow lists, their counters and isOnline; everything else is kept |
| Users.CastsHold | controllers/userController.js:187-191 | an update whose casts all succeed gives valid ids for the follow lists, numbers for the counters and a Boolean for isOnline |
| Users.EmptyUpdateKeepsAccount | controllers/userController.js:187-191 | an update naming no schema path leaves the user as it was |
| Users.ApplyUpdateIdempotent | controllers/userController.js:187-191 | applying the same update twice is applying it once |
| Users.StrippingKeepsCredentials | controllers/userController.js:175-179 | the stripped update never changes email or password, while the body as sent would overwrite them |
| Users.UpdateDecision | controllers/userController.js:166-202 | 403 iff another user's id; a bad profile picture is rejected next; an invalid id, a failed cast or a failed validator is a 500; a missing user is a 404; a username another user holds is a 500; otherwise the stripped update is applied and email and password are kept |
| Users.UpdateKeepsUsernamesUnique | controllers/userController.js:187-191 | a successful update keeps usernames unique |
| Users.UpdateUser | controllers/userController.js:166-202 | the stored user changes only on success, and then as UpdateDecision says |
| Users.EligibleInOrder | controllers/userController.js:208-216 | exactly the existing users other than the caller that match |
| Users.EligibleInOrderSplits | controllers/userController.js:208-216 | the search keeps collection order: a split order gives its parts' results in turn, and one user is kept iff eligible |
| Users.SearchUsers | controllers/userController.js:204-225 | a blank or whitespace-only query is refused; a missing caller with at least one hit gets no answer; otherwise the first min(20, n) eligible users in collection order, each flagged with whether the caller follows it |
| Posts.LikeToggled | controllers/postController.js:79-84 | the liker's membership flips and nothing else changes |
| Posts.LikeTwiceRestores | controllers/postController.js:79-84 | liking twice restores who likes the post |
| Posts.LikeKeepsLikesDistinct | controllers/postController.js:79-84 | a user appears at most once in likes, and the count moves by exactly one |
| Posts.PullOfDistinct | controllers/postController.js:81 | pulling an element present once shortens the array by one |
| Posts.LikeNotification | controllers/postController.js:99-106 | a notification only for a new like by someone other than the owner |
| Posts.ToggleLike | controllers/postController.js:45-134 | a missing post id gives 400, then no user gives 401, then an invalid id gives 500, then a missing post gives 404, each with no change; otherwise the like flips, hasLiked is its new state, and the broadcast and notification follow |
| Posts.CommentNotification | controllers/postController.js:156-172 | the owner is notified with the comment text unless the owner commented |
| Posts.AddComment | controllers/postController.js:136-182 | a missing post gives 404; an invalid id or content the schema refuses gives 500; otherwise the comment is stored and its id appended to the post |
| Posts.DigitRun | controllers/postController.js:208 | the longest prefix of digits in the radix |
| Posts.SkipWhitespace | controllers/postController.js:208 | parseInt skips leading whitespace and line terminators |
| Posts.ParseUnsigned | controllers/postController.js:208 | NaN exactly when no digit follows the optional `0x` prefix; otherwise a non-negative value |
| Posts.JsParseInt | controllers/postController.js:208 | an empty or blank page parameter is NaN |
| Posts.Decimal | controllers/postController.js:208 | a reference rendering used to state what parseInt reads: the decimal digits of a number, with no leading zero |
| Posts.DecimalValue | controllers/postController.js:208 | the rendering's digit value is the number |
| Posts.ParseIntReadsDecimal | controllers/postController.js:208 | parseInt reads back any decimal number, with or without a minus sign, whatever non-digit follows |
| Posts.ParseIntSkipsLeadingWhitespace | controllers/postController.js:208 | leading whitespace does not change what parseInt reads |
| Posts.DigitRunExact | controllers/postController.js:208 | the digit run is the unique digit prefix followed by a non-digit or the end |
| Posts.PageNumber | controllers/postController.js:208 | the page is the parsed number, or 1 when the parameter is absent or parses to NaN or zero |
| Posts.FeedWindow | controllers/postController.js:209-220 | a page below 1 is refused; otherwise up to ten posts starting at (page-1)*10 of the ranked list |
| Posts.FeedPagesCover | controllers/postController.js:209-220 | every ranked post appears on page rank/10+1 at position rank mod 10 |
| Posts.FollowedPosts | controllers/postController.js:212-220 | exactly the posts whose owner the caller follows and whose owner still exists |
| Posts.FollowedPostsSplits | controllers/postController.js:212-220 | the feed keeps ranked order: a split ranking gives its parts' followed posts in turn, and one post is kept iff its owner is followed and exists |
| Posts.PersonalizedFeed | controllers/postController.js:205-236 | 500 iff the caller is missing or the page is below 1; otherwise exactly the requested page of the followed posts in ranked order, at most ten, all by followed users |
| Posts.FeedShowsEveryFollowedPost | controllers/postController.js:205-236 | asking for page i/10+1 in decimal shows the i-th followed post at position i mod 10 |
| AuthMiddleware.BeforeSpace | middleware/auth.js:11 | the prefix up to the first space |
| AuthMiddleware.BearerToken | middleware/auth.js:8-13 | a header yields a token exactly when it is truthy and starts with "Bearer " |
| AuthMiddleware.BearerReadsToken | middleware/auth.js:10-11 | "Bearer <t>" with or without further fields yields exactly t |
| AuthMiddleware.FirstTruthy | middleware/auth.js:6-17 | the candidate at the least truthy index; none iff every candidate is falsy |
| AuthMiddleware.FirstTruthyOfThree | middleware/auth.js:6-17 | the first truthy of three is chosen in order |
| AuthMiddleware.SelectToken | middleware/auth.js:6-17 | the token is truthy iff some source is, and then it is the first truthy of cookie, bearer header and query |
| AuthMiddleware.VerificationMessage | middleware/auth.js:57-62 | TokenExpiredError and JsonWebTokenError get their own messages, anything else "Token is not valid" |
| AuthMiddleware.Authenticate | middleware/auth.js:4-70 | no token is AUTH_TOKEN_REQUIRED; a failed verification is INVALID_TOKEN with its message; a missing or invalid userId is INVALID_TOKEN_FORMAT; otherwise the request proceeds with the cast user id; every rejection is 401 |
| AuthMiddleware.CookieTakesPrecedence | middleware/auth.js:6 | a truthy cookie decides the outcome whatever the header and query hold |
| ErrorMiddleware.StatusOr | middleware/error.js:5 | a present nonzero status wins, otherwise the fallback |
| ErrorMiddleware.MessageOr | middleware/error.js:6 | a truthy message wins, otherwise "Internal Server Error" |
| ErrorMiddleware.Messages | middleware/error.js:21 | the validator messages, one per entry, in order |
| ErrorMiddleware.JoinTwo | middleware/error.js:22 | two parts are joined with one separator |
| ErrorMiddleware.UpperAscii | middleware/error.js:29 | an ASCII lower-case letter becomes its upper-case letter; every other character is kept |
| ErrorMiddleware.Capitalize | middleware/error.js:29 | the first character upper-cased, the rest kept |
| ErrorMiddleware.DuplicateKeyMessage | middleware/error.js:29 | the capitalised field followed by " already exists" |
| ErrorMiddleware.EmailAlreadyExists | middleware/error.js:26-30 | a duplicate email is reported as "Email already exists" |
| ErrorMiddleware.Conclude | middleware/error.js:26-36 | code 11000 is 400 with the duplicate-key message, a missing keyValue throws, and the stack is sent only in development |
| ErrorMiddleware.ValidationEcho | middleware/error.js:8-16 | an errors object is answered with 'Validation error', the errors echoed, and status err.status or 400 |
| ErrorMiddleware.HandleErrorAsWritten | middleware/error.js:1-37 | as written: any errors object is echoed, so a ValidationError never reaches the joined-messages branch |
| ErrorMiddleware.HandleError | middleware/error.js:1-37 | every body has success false; a ValidationError gets 400 with its messages joined by ", "; other errors keep the echo and the defaults; 11000 is checked last |
| ErrorMiddleware.CorrectionOnlyTouchesValidationErrors | middleware/error.js:8-23 | the corrected handler answers every other error exactly as written |
| ErrorMiddleware.ValidationMessagesShadowed | middleware/error.js:8-23 | a required-field ValidationError gets "Validation error" as written and "Email is required" once corrected |
| Cors.AllowedOrigins | server.js:19-24 | the fixed list, plus FRONTEND_URL only when it is set and non-empty |
| Cors.PreviewPatternMeaning | server.js:26-29 | the check holds iff the origin is the prefix, one label or two labels joined by a dash, then ".vercel.app" |
| Cors.FirstDash | server.js:28 | the index of the first '-', with none before it |
| Cors.OriginAllowed | server.js:31-41 | an absent origin is allowed; otherwise allowed iff listed or matching a preview pattern |
| Cors.PreviewOriginsAllowed | server.js:33-35 | the production origin and one-label and two-label preview origins pass |
| Cors.UppercasePreviewRefused | server.js:37-39 | a preview name with upper-case letters is refused |
| Cors.MultiDashPreviewRefused | server.js:37-39 | a preview name with two dashes is refused |
| Cors.ForeignOriginRefused | server.js:37-39 | a foreign origin is refused unless it is the configured front end |

## Left out

- Socket.IO and Express wiring are not modelled. Emits are an `outbox` sequence. A broadcast to a room is one emit naming the room, not one per member.
- heartbeat (controllers/chatController.js:85-95) only writes `lastSeen`, a clock value. Timestamps are left out, as is `lastSeen` on connect and disconnect.
- register-push only stores into `pushSubs`, which nothing reads.
- The socket server's own CORS callback (controllers/chatController.js:33) is left out. Only the HTTP check in server.js is modelled.
- JWT signing and verification, bcrypt hashing and comparison, and web-push setup are opaque: their results are parameters.
- Database calls are modelled as updates of maps. Other parts of MongoDB are left out:
  - populate details beyond dropping missing users;
  - the random `$sample`;
  - query interleaving between awaits;
  - send_message's transaction mechanics, modelled as all-or-nothing up to the commit.
- Document order of `find` results is a given sequence.
- The no-answer timer is the explicit `NoAnswerTimeout` event. Its 30 s delay and its interleaving with other events are not modelled.
- Handlers outside the modelled core are left out: getConversations, getConversation, completeOnboarding, getUser, getSuggestedUsers, createPost, getPosts, getPostsByUser, logout, getCurrentUser, and the notification controller.
- Strings are sequences of code points. JavaScript's UTF-16 code units matter for sort order and lengths only outside the Basic Multilingual Plane, which the model does not distinguish.
- Common.IsObjectId: accepts only 24-character hexadecimal strings. ObjectId also accepts any 12-character string, which the model treats as invalid.
- Users.SearchUsers: the user-supplied regular expression is the parameter `matches`. Its regular-expression semantics, and the error an invalid pattern raises, are not modelled.
- Users.UpdateUser: the body is a map from strings to strings; non-string values (arrays, objects, numbers) are not modelled. isNewUser, onboardingComplete, blockedUsers and lastSeen are not fields of an account: only whether their cast fails is modelled, not the value they store. The immutable `_id`, the timestamps and `__v` are not modelled. Lengths count code points, not UTF-16 units.
- Users.UpdatedCount: the counters are integers. `Number(s)` of a fractional or infinite string, and the null that Mongoose stores for an empty string, are not represented: the model takes whatever integer `toNumber` gives.
- Users.FollowUser: uses the corrected membership test of the first "## Findings" row. The source as written behaves as Users.FollowStepAsWritten, which differs only for an id sent with upper-case hex digits (Users.AsWrittenAgreesOnPrintedIds).
- Chat.ChatHub.ClearTypingOf: the emits go out in an order the model picks. The source walks the typing map in insertion order, which the model does not keep.
- Chat.ChatHub.EndCallsOf: the rooms are ended in an order the model picks. The source walks the rooms map in insertion order, which the model does not keep.
- Auth.Signup: the schema validators on save (name lengths, the username pattern, the email pattern) and a duplicate key from a concurrent signup are the flag `saveFails`.
- ErrorMiddleware.HandleError: an `errors` field that is truthy but not an object is treated as absent. `status` is modelled as an integer.
- ErrorMiddleware.UpperAscii: upper-cases ASCII letters only. The full Unicode `toUpperCase` is not modelled.
- Posts.JsParseInt: values are unbounded integers. JavaScript's double-precision rounding of very long digit strings is not modelled.
- Chat.HandshakeIdentity: an invalid userId makes the ObjectId constructor throw inside the middleware, which Socket.IO reports as a refused connection. The model returns None.
- Chat.Connection.JoinPersonalRoom: a number argument to the ObjectId constructor is not modelled.
- Console logging is left out.

## Findings

| source | as written | input that shows it | evidently intended | confidence | as-written member | corrected member |
|---|---|---|---|---|---|---|
| controllers/userController.js:60-62 | the follow check compares the stored, lower-case ids with the target id exactly as sent | a target id in upper-case hex that the user already follows | the id is compared after the same cast that the pull and push use, so a followed user is unfollowed | not executed | Users.UppercaseTargetFollowsTwice | Users.FollowStep |
| middleware/error.js:8-23 | any error with an `errors` object returns "Validation error" first, so the ValidationError branch never joins its messages | a Mongoose ValidationError with one field error "Email is required" | a ValidationError answers 400 with its messages joined by ", " | not executed | ErrorMiddleware.ValidationMessagesShadowed | ErrorMiddleware.HandleError |
