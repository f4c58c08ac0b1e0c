# Chat backend core in Dafny

A model of the decision logic of a chat application's backend. The backend has:

- password login with temporary lockout;
- a session-checked bearer-token gate and role and ownership guards;
- invitations that turn into connections, each with a conversation;
- the paginated connection and invite listings;
- conversation access;
- input validators and sanitizers;
- the JSON reply envelopes.

The store is an immutable value: sequences of users, password records, sessions, invites, connections, conversations and messages. Each operation is a pure function or a method without side effects. It returns its outcome, and where it writes, the store after the write. Three things come in as parameters:

- **bcrypt comparison.** This is `matches(plain, hash)`.
- **JWT signing and verification.** These are `sign(payload)` and `verify(token)`. `verify` returns `None` where the library throws.
- **The clock.** `now` is in milliseconds.

Errors are values, one constructor per message the code throws, with the message text attached.

The code has no credential unlock, temporary credentials, session cap, logout, password reset or change, or connection deletion, and none of these is modelled. What the code does, the model follows:

- `login` reads and writes only the most recent valid password record of the user.
- Its errors are distinct: an unknown e-mail and a wrong password give different messages.
- Nothing in the code ever unblocks a record. A record whose failures reach its own attempt limit (`maxAttempts`) is blocked. With a limit of three, three wrong passwords block a user's only record. From then on, login reports that no password is found, even after the fifteen-minute lock has passed. `AuthService.ThreeFailuresBlockTheOnlyRecord` states this scenario.

The validators' messages disagree with their expressions, and the model follows the expressions:

- The username message says "3 e 20" characters. The expression accepts 2 to 19.
- The full-name message says 100 characters. The expression accepts 50.

Modules:

- `Entities`: the records.
- `Text`: JavaScript `trim`, `\s` and case mapping.
- `Sorting`: stable insertion sort by a key.
- `Pagination`: page arithmetic and JavaScript `slice`.
- `AuthService`, `AuthMiddleware`, `RoleGuard` and `Access`.
- `InviteService`, `ConnectionService` and `ConversationService`.
- `UserTypes`, `Validators`, `Sanitizers` and `Response`.

## Model

| member | source | states |
|---|---|---|
| AuthService.Login | backend/src/services/auth.service.ts:13-103 | Each outcome holds exactly when its guard does, checked in order: unknown e-mail, status other than 'A', no valid record, locked record, wrong password, success. Only a wrong password or a success writes. A wrong password records the failure on the chosen record. A success resets it and returns the user's id, username, e-mail and role with the token signed over id, e-mail and role. |
| AuthService.LatestValid | backend/src/services/auth.service.ts:29-41 | The chosen record is the user's `valid` record with the latest creation time. It is absent exactly when the user has no `valid` record. |
| AuthService.LatestValidUnique | backend/src/services/auth.service.ts:29-41 | The selection rule picks one record, so the choice is determined. |
| AuthService.LoginKeepsLockoutInvariants | backend/src/services/auth.service.ts:50-80 | If every valid record is below its attempt limit before a login, this holds after it too. A blocked record stays blocked. The number of records is unchanged. |
| AuthService.BlockedRecordIsNotChosenAgain | backend/src/services/auth.service.ts:29-63 | A failure that reaches the limit blocks the record. The next selection then never picks that record; it picks an older-or-equal one or none. |
| AuthService.ReplayKeepsLockoutInvariants | backend/src/services/auth.service.ts:13-103 | Over any sequence of logins, a valid record never exceeds its attempt limit and blocked records stay blocked. |
| AuthService.ThreeFailuresBlockTheOnlyRecord | backend/src/services/auth.service.ts:50-70 | Concrete scenario with a limit of 3. The attempts count 1, then 2. The third failure blocks the record until now + 15 min. The right password then finds no password, both before and after the lock expires. |
| AuthMiddleware.TakeUntilSpace | backend/src/middlewares/auth.middleware.ts:28 | The result is the longest space-free prefix: it has no space and is followed by a space or the end. |
| AuthMiddleware.BearerToken | backend/src/middlewares/auth.middleware.ts:23-28 | The token is the space-free text right after `Bearer `, ending at the next space or the end of the header. |
| AuthMiddleware.BearerTokenRoundTrip | backend/src/middlewares/auth.middleware.ts:23-28 | For any space-free token, `Bearer ` + token passes the header check and yields the token back. |
| AuthMiddleware.TakeUntilSpaceOfSpaceFree | backend/src/middlewares/auth.middleware.ts:28 | A space-free string is its own first segment. |
| AuthMiddleware.LiveSessions | backend/src/middlewares/auth.middleware.ts:35-41 | Exactly the sessions of the decoded user that are unrevoked and expire after now. |
| AuthMiddleware.FirstMatch | backend/src/middlewares/auth.middleware.ts:44-52 | Returns the first live session whose hash matches the token, or none when no hash matches. |
| AuthMiddleware.Authenticate | backend/src/middlewares/auth.middleware.ts:20-65 | The scan's decision equals the declarative gate. A missing or non-Bearer header is rejected. Acceptance means the token verifies to the accepted payload and a live session of that user matches it. |
| AuthMiddleware.DeadSessionChangesNothing | backend/src/middlewares/auth.middleware.ts:35-41 | Adding a revoked or expired session never changes the gate's decision, even when its hash matches. |
| AuthMiddleware.RequireRole | backend/src/middlewares/auth.middleware.ts:68-82 | 401 exactly when there is no user. Otherwise it allows exactly when the role is allowed, and gives 403 when it is not. |
| AuthMiddleware.RequireOwnership | backend/src/middlewares/auth.middleware.ts:85-100 | 401 without a user. It allows exactly when the user id equals the route parameter `paramKey`, which defaults to `id`. |
| AuthMiddleware.RequireRoleOrOwner | backend/src/middlewares/auth.middleware.ts:103-120 | 401 without a user. Allows exactly when the user is the owner or has an allowed role. |
| AuthMiddleware.RequireRoleAndOwner | backend/src/middlewares/auth.middleware.ts:123-140 | 401 without a user. Allows exactly when the user is the owner and has a required role. |
| AuthMiddleware.GuardsCompose | backend/src/middlewares/auth.middleware.ts:68-140 | Role-or-owner is the disjunction of the role and ownership guards, and role-and-owner is their conjunction. Whatever role-and-owner allows, role-or-owner allows. |
| AuthMiddleware.RequireRoleMonotone | backend/src/middlewares/auth.middleware.ts:68-82 | Allowing more roles never denies a user who was allowed before. |
| RoleGuard.RequireRole | backend/src/middlewares/requireRole.ts:3-17 | 401 without a user, then 403 for a role not allowed, otherwise allow. An empty role list allows nobody. |
| RoleGuard.OnlyRoleMatters | backend/src/middlewares/requireRole.ts:10-13 | Two users with the same role get the same decision. |
| RoleGuard.SameAsMiddlewareGuard | backend/src/middlewares/requireRole.ts:3-17 | The standalone guard decides exactly as the guard in the authentication middleware. |
| InviteService.SendInvite | backend/src/services/invite.service.ts:3-65 | Succeeds exactly when every guard passes. A failure reports the first failing guard, in source order: sender given, receiver username given, sender exists, receiver exists, not oneself, no connection either way, no invite either way. Any failure leaves the store unchanged. A success appends exactly one invite from the sender to the receiver and nothing else. |
| InviteService.SendFailure | backend/src/services/invite.service.ts:4-64 | The first failing guard of `sendInvite`. There is none exactly when every guard passes. |
| InviteService.AcceptFailure | backend/src/services/invite.service.ts:178-202 | The first failing check of `acceptInvite`, or none exactly when all pass: a missing invite or one addressed to someone else gives the invalid-invite error, then a missing sender, then an existing connection either way. |
| InviteService.AcceptInvite | backend/src/services/invite.service.ts:176-225 | Fails with the first failing check: the invite exists and belongs to the receiver, the sender still exists, and no connection joins them either way. A failure leaves the store unchanged. A success adds one connection (A = sender, B = receiver) with a fresh id, adds a conversation for it, and removes exactly that invite, all in one step. |
| InviteService.RejectInvite | backend/src/services/invite.service.ts:227-239 | Succeeds exactly when the invite exists and the caller is its receiver. It then removes exactly the invites with that id and leaves the rest of the store unchanged. |
| InviteService.CancelInvite | backend/src/services/invite.service.ts:241-253 | Succeeds exactly when the invite exists and the caller is its sender. It removes exactly that invite. |
| InviteService.RemoveInvite | backend/src/services/invite.service.ts:219-221 | Keeps exactly the invites with another id. The invites are unchanged when no invite has the id. |
| InviteService.RemoveInviteFacts | backend/src/services/invite.service.ts:219-221 | Removing keeps ids unique. With unique ids, removing a present id deletes exactly one invite. |
| InviteService.SendInviteKeepsConsistent | backend/src/services/invite.service.ts:44-64 | `sendInvite` keeps the store consistent, which includes at most one invite per unordered pair. |
| InviteService.AcceptInviteKeepsConsistent | backend/src/services/invite.service.ts:204-222 | `acceptInvite` keeps the store consistent: one connection per pair, no invite between connected users, each connection with exactly one conversation. |
| InviteService.RejectInviteKeepsConsistent | backend/src/services/invite.service.ts:235-236 | `rejectInvite` keeps the store consistent. |
| InviteService.CancelInviteKeepsConsistent | backend/src/services/invite.service.ts:249-250 | `cancelInvite` keeps the store consistent. |
| InviteService.RejectAndCancelOwnership | backend/src/services/invite.service.ts:227-253 | Only the receiver may reject and only the sender may cancel. Each removes exactly one invite. |
| InviteService.AcceptedPairCannotBeInvitedAgain | backend/src/services/invite.service.ts:29-41 | After an accept, the two users are connected and no invite joins them. No new invite between them, in either direction, passes the send guards. |
| InviteService.SentPairCannotBeInvitedAgain | backend/src/services/invite.service.ts:43-64 | After a send, a second invite between the pair fails in either direction. |
| InviteService.FindInviteOfMember | backend/src/services/invite.service.ts:178 | With unique ids, looking up a stored invite's id finds that invite. |
| InviteService.InviteRows | backend/src/services/invite.service.ts:86-94 | The rows paged through hold each of the user's invites on the requested side exactly as often as the store does, and nothing else. There are as many as the count query reports, ordered by creation time. |
| InviteService.CountOnSide | backend/src/services/invite.service.ts:89 | The count query: at most the number of invites, and 0 exactly when the user has no invite on the side. |
| InviteService.SideInvites | backend/src/services/invite.service.ts:86-93 | The `where` filter: each invite on the side is kept exactly as often as it is stored, every other is dropped, and the number kept is the count query's. |
| InviteService.RowsAreTheSideInvites | backend/src/services/invite.service.ts:86-94 | An invite is a row exactly when it is stored and on the requested side. |
| InviteService.ListPaginatedInvites | backend/src/services/invite.service.ts:78-119 | Received and sent invites alike; the sent listing repeats this code on the sender side. The data is exactly the ordered rows from `skip = (page-1)*limit`, at most `limit` of them, cut at the end, so every row is on the user's side and in order. The total is the count query's result, which equals the number of rows. The reported page is 0 exactly when the total is 0, and `page` otherwise. The page count is the ceiling of total / limit. |
| Pagination.TotalPages | backend/src/services/invite.service.ts:109 | The least number of pages of `limit` rows that holds all rows; it is 0 exactly when there are no rows. |
| Pagination.ReportedPageZeroIffEmpty | backend/src/services/invite.service.ts:110 | For a requested page of at least 1, the reported page is 0 exactly when nothing matched. |
| Pagination.JsSlice | backend/src/services/connection.service.ts:81 | `slice(start, end)` as JavaScript reads it. In-range bounds give the plain slice. Negative bounds count from the end, and a start before the beginning is cut to it. An end past the length is cut to the length. An end of 0, or an end not after the start with both on the same side of 0, gives nothing. The result is never longer than the range and holds only elements of the input. |
| Pagination.WindowIsSkipTake | backend/src/services/invite.service.ts:84 | From page 1 on, the page slice equals the store's skip/take: rows from `(page-1)*limit`, at most `limit` of them. |
| Pagination.Paginate | backend/src/services/connection.service.ts:81-84 | The page both listings return. From page 1 on, the data is the rows from `(page-1)*limit`, at most `limit` of them. Page 0 is empty. The reported page is 0 exactly for an empty total and `page` otherwise. The page count is the least that covers the total, and 0 exactly when the total is 0. |
| Pagination.PageIsSorted | backend/src/services/connection.service.ts:81 | From page 1 on, a page cut from sorted rows is sorted. |
| ConnectionService.ItemsAsA | backend/src/services/connection.service.ts:12-26 | The connections where the user is A and B passes the search, each showing B. Every entry comes from such a connection, every such connection gives an entry, and there are exactly as many entries as the `count` query reports for `whereA`. |
| ConnectionService.ItemsAsB | backend/src/services/connection.service.ts:28-42 | The same for connections where the user is B, showing A, with the entry count equal to the `count` query for `whereB`. |
| ConnectionService.MatchesSearch | backend/src/services/connection.service.ts:12-41 | An absent or empty search matches every profile. Otherwise the profile matches exactly when its username or full name has an offset where the search text agrees character by character up to case. |
| Text.ContainsIgnoringCaseIsFolded | backend/src/services/connection.service.ts:19-20 | Lower-casing both strings and searching the one in the other is the same as a character-by-character match up to case at some offset. |
| ConnectionService.CountAsA | backend/src/services/connection.service.ts:45 | The count of connections listed because the user is A; at most the number of connections. |
| ConnectionService.CountAsB | backend/src/services/connection.service.ts:56 | The count of connections listed because the user is B; at most the number of connections. |
| ConnectionService.SortedItems | backend/src/services/connection.service.ts:69-79 | The merged entries, permuted (same multiset) and ordered by the shown user's full name, ascending or descending. |
| ConnectionService.ListPaginatedConnections | backend/src/services/connection.service.ts:3-93 | From page 1 on, the data is exactly the sorted entries from `(page-1)*limit`, at most `limit` of them, so it is in order. Page 0 gives no entries, and any page gives at most `limit` entries from the sorted list. The total is `totalA + totalB`, which equals the number of entries on both sides. The reported page is 0 when the total is 0, and `page` otherwise. The page count is the ceiling. |
| ConnectionService.EntriesShowTheOtherUser | backend/src/services/connection.service.ts:69-73 | Every listed entry comes from a connection of the user that passes the search, and shows the user on the other side. |
| ConnectionService.NoSearchListsEveryConnection | backend/src/services/connection.service.ts:12-42 | Without search text, every connection of the user is listed, on either side. |
| ConnectionService.SearchKeepsOnlyMatchingUsers | backend/src/services/connection.service.ts:12-42 | With search text, every listed user's username or full name contains it, ignoring case. |
| ConnectionService.ReportedPageIsZeroIffNoConnections | backend/src/services/connection.service.ts:82-84 | For page at least 1, the reported page is 0 exactly when the total is 0. |
| ConversationService.GetConversationByConnectionId | backend/src/services/conversation.service.ts:3-43 | The errors, in order: connection not found (exactly when no connection has the id), caller is not a member (exactly when the caller is neither side), no conversation for the connection. On success the messages are exactly the conversation's messages, permuted and ordered by sent time. |
| ConversationService.NonMemberSeesNothing | backend/src/services/conversation.service.ts:14-16 | A caller who is neither side of the connection gets an error and never a conversation. The answer is the same whatever conversations and messages are stored. |
| ConversationService.MemberOfConsistentStoreGetsConversation | backend/src/services/conversation.service.ts:18-40 | In a store where every connection has a conversation, a member of an existing connection gets it. |
| Validators.IsValidUsername | backend/src/utils/validators.ts:3-7 | Accepts exactly strings of 2 to 19 characters from `[a-zA-Z0-9._-]` whose first and last characters are letters or digits. |
| Validators.UsernameLengthsAreTwoToNineteen | backend/src/utils/validators.ts:5 | "ab" and a 19-letter name pass; a 20-letter name and a single letter fail, contrary to the 3–20 of the message. |
| Validators.IsValidEmail | backend/src/utils/validators.ts:9-13 | Accepts exactly the strings that split as a non-empty local part, `@`, a non-empty run, `.`, and a non-empty run, with no whitespace and no other `@`. |
| Validators.AcceptedEmailShape | backend/src/utils/validators.ts:11 | An accepted address has exactly one `@`, not at the start, and no whitespace. |
| Validators.EmailExamples | backend/src/utils/validators.ts:11 | `a@b.c` passes; `a@b` and `a@b@c.d` fail. |
| Validators.IsValidFullName | backend/src/utils/validators.ts:15-19 | Accepts exactly the names whose trimmed text has 3 to 50 characters, all letters A–Z, a–z, À–Ö, Ø–ö, ø–ÿ, apostrophe, space or hyphen. |
| Validators.FullNameIgnoresSurroundingSpace | backend/src/utils/validators.ts:18 | Adding whitespace before or after a name never changes the verdict. |
| Validators.NameWithDigitIsInvalid | backend/src/utils/validators.ts:17 | A digit fails the name. |
| Validators.FiftyOneLettersAreTooMany | backend/src/utils/validators.ts:17 | 51 letters fail, although the message speaks of 100. |
| Validators.ValidateUserInput | backend/src/utils/validators.ts:21-43 | Passes exactly when every present field is valid. Absent fields are never checked. Each error is reported exactly when its field is the first invalid one, in the order username, e-mail, full name, role ('0' or '1'), status ('A' or 'I'). |
| Validators.ValidationIsFieldByField | backend/src/utils/validators.ts:21-43 | An input passes exactly when each field passes alone. A failing input reports the error of its first field that fails alone. |
| Sanitizers.SanitizeCreateUserInput | backend/src/utils/sanitizers.ts:3-11 | All fields come out trimmed and the username has no capitals. Role is the trimmed role, or '1' when it is absent or blank. Status is the trimmed upper-cased status, or 'A' when absent or blank. |
| Sanitizers.SanitizeUpdateUserInput | backend/src/utils/sanitizers.ts:13-21 | Present fields stay present and absent ones absent, with no defaults: a blank role or status stays present and empty. The username is its normalized form. E-mail, full name and role are their trims. The status is its normalized form. Every present field is trimmed; the username has no capitals and the status no lower-case letters. |
| Sanitizers.NormalizeUsername | backend/src/utils/sanitizers.ts:5 | The username comes out trimmed, with no ASCII capital, and as long as the trimmed input. |
| Sanitizers.NormalizeStatus | backend/src/utils/sanitizers.ts:9 | The status comes out trimmed, with no ASCII lower-case letter. It is empty exactly when the input is blank. |
| Sanitizers.RoleOrDefault | backend/src/utils/sanitizers.ts:8 | The role is never empty. A non-blank role gives its trimmed text; an absent or blank role gives '1'. |
| Sanitizers.StatusOrDefault | backend/src/utils/sanitizers.ts:9 | The status is never empty. A non-blank status gives its normalized text; an absent or blank status gives 'A'. |
| Sanitizers.SanitizeCreateIdempotent | backend/src/utils/sanitizers.ts:3-11 | Sanitizing a sanitized creation input again changes nothing. |
| Sanitizers.SanitizeUpdateIdempotent | backend/src/utils/sanitizers.ts:13-21 | Sanitizing a sanitized update again changes nothing. |
| Sanitizers.CreateIsUpdateWithDefaults | backend/src/utils/sanitizers.ts:3-21 | Creation sanitizing equals update sanitizing field by field, plus the defaults '1' and 'A' where the update leaves role or status absent or empty. |
| Sanitizers.EmailAndNameOnlyTrimmed | backend/src/utils/sanitizers.ts:6-7 | E-mail and full name are the input's text between leading and trailing whitespace, with case kept. |
| Sanitizers.UsernameIsLoweredTrim | backend/src/utils/sanitizers.ts:5 | The username is the input's text between leading and trailing whitespace, each character lower-cased. |
| Sanitizers.StatusIsUpperedTrim | backend/src/utils/sanitizers.ts:9 | The status is the input's text between leading and trailing whitespace, each character upper-cased. |
| Text.Trim | backend/src/utils/sanitizers.ts:5-9 | The result starts and ends with a non-whitespace character, and sits in the input with only whitespace before and after it. |
| Text.TrimUnique | backend/src/utils/sanitizers.ts:5-9 | Any trimmed text with only whitespace around it in the input is the trim. |
| Text.TrimIgnoresLeadingSpace | backend/src/utils/validators.ts:18 | A whitespace character put in front of a string does not change its trim. |
| Text.TrimIgnoresTrailingSpace | backend/src/utils/validators.ts:18 | A whitespace character put after a string does not change its trim. |
| Text.Lower | backend/src/utils/sanitizers.ts:5 | `toLowerCase` keeps the length and maps each character on its own, by `Text.LowerChar`. |
| Text.Upper | backend/src/utils/sanitizers.ts:9 | `toUpperCase` keeps the length and maps each character on its own, by `Text.UpperChar`. |
| Text.LowerChar | backend/src/utils/sanitizers.ts:5 | An ASCII capital becomes the small letter 32 code points above it, and every other character is unchanged. No capital is left, and whitespace stays whitespace. |
| Text.UpperChar | backend/src/utils/sanitizers.ts:9 | An ASCII small letter becomes the capital 32 code points below it, and every other character is unchanged. No small letter is left, and whitespace stays whitespace. |
| Text.CaseMapsAreInverse | backend/src/utils/sanitizers.ts:5-9 | Upper-casing undoes lower-casing on capitals, and lower-casing undoes upper-casing on small letters. |
| Text.LowerExample | backend/src/utils/sanitizers.ts:5-9 | `AbC-1` lower-cases to `abc-1`, and `aBc-1` upper-cases to `ABC-1`. |
| Text.TrimIdempotent | backend/src/utils/sanitizers.ts:5-9 | Trimming twice equals trimming once. |
| Response.ErrorResponse | backend/src/utils/response.ts:3-18 | The status is passed through, and the body has exactly `success: false` and `error`. `error.message` is the message. `code` and `details` are present exactly when truthy and hold the given text. |
| Response.SuccessResponse | backend/src/utils/response.ts:20-33 | Status 200, `success: true`, `data` unchanged, and `message` present exactly when truthy. No other keys. |
| Response.ErrorResponseRoundTrip | backend/src/utils/response.ts:10-17 | Reading an error body back gives the message, with code and details present exactly when they were truthy. |
| Response.ErrorAndSuccessAreDistinguishable | backend/src/utils/response.ts:3-33 | The `success` flag tells the two envelopes apart, and a success body never reads as an error. |
| Sorting.SortBySorted | backend/src/services/connection.service.ts:75-79 | The sort orders its result by the key. |
| Sorting.SortBy | backend/src/services/connection.service.ts:75-79 | The sort's result is a permutation of its input. |
| Sorting.SortByStable | backend/src/services/connection.service.ts:75-79 | The sort is stable: for every key value, the elements with that key come out in their input order. |
| Entities.FreshId | backend/src/services/invite.service.ts:206-217 | A new row id differs from every stored id. |

## Left out

- The database is not modelled. The store is a value, and `acceptInvite`'s transaction is one step. Parallel reads (`Promise.all`) are sequential. New ids come from `Entities.FreshId`. Creation times are the `now` argument.
- bcrypt, JWT signing and verification, and the clock are not modelled. They are parameters, and neither hashing nor signing is modelled. `verify` returning `None` stands for every exception the middleware's `catch` turns into "token invalid". A database failure caught by the same handler is not modelled.
- Express request and response objects are left out. Guards return a decision (allow, or deny with 401/403 and its message) rather than writing a response and calling `next`.
- Controllers, routes, app and server set-up, the crypto, e-mail and configuration utilities, the seed script, and the user, message and photo services are left out. They are plumbing, foreign I/O or pass-through CRUD. `listReceivedInvites` and `listSentInvites` (the unpaginated lists) are left out too.
- The code has no credential unlock, temporary credentials, session cap, logout, password reset or change, or connection deletion, so none of them is modelled.
- AuthService.LatestValid: the store's `findFirst` with `orderBy: createdAt desc` leaves ties unordered. The model resolves a tie by taking the earliest record in store order.
- ConnectionService.SortedItems: `localeCompare` with pt-BR collation is an abstract key `collate: string -> real`. Every total preorder on a countable set of strings embeds in the rationals, so this loses nothing about the order. The sort is stable (`Sorting.SortByStable`), as JavaScript's `sort` is.
- ConnectionService.MatchesSearch: the database's case-insensitive `contains` uses ASCII case folding only.
- Sanitizers.SanitizeCreateUserInput: `toLowerCase` and `toUpperCase` map ASCII letters only. JavaScript also maps other scripts, and `ß` upper-cases to two characters.
- InviteService.ListPaginatedInvites: it requires page ≥ 1, because the store rejects a negative skip. It requires limit > 0 as a modelling precondition, so that `Math.ceil(total / limit)` on floats is integer ceiling division. The controller passes any non-zero `parseInt` of the query through, and the store reads a negative take as that many rows from the end of the ordered list; that reverse reading, and the negative page count it reports, are not modelled. The rows are whole invites, not the `select`ed projection of the other user's id, username and full name. The count query and the page query read the same store, with no write in between.
- InviteService.InviteRows: `orderBy: { createdAt }` leaves the order of invites created at the same time open. The model sorts stably, so ties keep store order, and the page is taken from that one order.
- ConnectionService.ListPaginatedConnections: it requires limit > 0 as a modelling precondition, so that `Math.ceil(total / limit)` on floats is integer ceiling division. A negative limit, which the controller's `parseInt` lets through, is not modelled. A page below 1 (the controller passes `parseInt` of the query through) goes through JavaScript's negative-index `slice`, as `Pagination.JsSlice` states. The ordering claim holds from page 1 on.
- ConnectionService.ListPaginatedConnections: the count queries and the listing queries read the same store, so `total` equals the number of entries; concurrent writes between them are not modelled.
- ConversationService.GetConversationByConnectionId: the message projection (which columns are selected) is not modelled; messages are returned whole.
- Text.Trim: `trim` and `\s` use the ECMAScript WhiteSpace and LineTerminator characters. The character classes of the validators are over UTF-16 code units, which for the accepted characters are single `char`s.
