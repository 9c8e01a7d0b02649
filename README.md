# Candle Clicker game server: account and message store

This project models the backend of the Candle Clicker idle game (`index.js`) as an
in-memory store with two collections. The first holds the accounts. Each account has a
username, a password, a profile picture, an append-only list of publications (timestamped
progress snapshots) and an optional live progress record. The second holds the direct
messages between accounts.

Each HTTP handler becomes an operation on that store, and its answer is a `Status` standing
for the HTTP code: 200, 201, 400, 401, 404, 409 or 500.

- `schema.dfy` (module `Schema`) holds the records of the four schemas. It also holds the
  limits those schemas enforce when a document is saved: username at least 3 characters,
  message content at most 200, and a 24-hour message lifetime. Next to them are the two
  limits the handlers apply themselves: the picture-upload guard refuses images over
  32·1024 characters before the update (index.js:251), and the search query returns at
  most 10 accounts (index.js:177).
- `accounts.dfy` (module `Accounts`) covers the account side, written as functions of the
  account sequence:
  - the credential and picture guards;
  - the exact username lookup that registration and login share;
  - login, progress pull, profile and the case-insensitive prefix search;
  - the state change that each account-updating handler makes.
- `conversations.dfy` (module `Conversations`) covers the message side: the send guard, the
  two-way conversation filter sorted by creation time, and the 24-hour expiry.
- `server.dfy` (module `Server`) holds class `Store` with fields `users` and `messages`. The
  handlers that write are its methods: register, progress push, publish, picture upload,
  send, and an explicit expiry step. Each method keeps the store invariant `Valid()`: usernames
  are unique, every stored account and message passed its schema, and every picture is within
  the cap. Each method also states the whole new state, including what it leaves unchanged.
  The read handlers change nothing. They are the `Accounts` and `Conversations` functions,
  applied to `users` and `messages`.

Some modelling choices:
- A user id is the account's position in `users`. Ids are handed out in registration order
  and never reused, because nothing deletes an account. An update aimed at an id that no
  account has changes nothing and still answers 200. This is what `findByIdAndUpdate` does
  when it matches no document.
- An absent query or body string and an empty one are both falsy in the source. The model
  uses `""` for both. An absent id is `None`.
- The clock is the parameter `now`, in milliseconds.
- The progress payload is stored and returned as given.
- Store order, as used by the username lookup and the search, is registration order.

## Model

| member | source | states |
|---|---|---|
| `Accounts.FindByUsername` | index.js:94 | the `findOne({username})` lookup: the first account in store order whose username is exactly the given one, or none exactly when no account has it |
| `Accounts.Login` | index.js:110-129 | 400 exactly when the username or password is missing; success only with the id of an account whose username and stored password both equal the given ones, and always when the first account with that username has exactly that password; 401 otherwise, in particular when no account has the username |
| `Accounts.LoginExact` | index.js:116-125 | with unique usernames, login for an existing username returns that account's id if the password matches exactly and 401 if it does not |
| `Accounts.LoginAfterRegister` | index.js:88-125 | after registering a new name, login with the same credentials returns the id registration handed out, and any other non-empty password gets 401 |
| `Accounts.RegisterKeepsWellFormed` | index.js:61-73 | appending a new account whose name is not taken and that passes the schema keeps usernames unique and every account within the schema limits |
| `Accounts.PullProgress` | index.js:143-150 | the progress pull returns the account's saved live progress; an unknown id and an account that never saved both give nothing (`{}`) |
| `Accounts.WithLiveProgress` | index.js:132-137 | after a progress push, that account's live progress is exactly the pushed record and no other field or account changes; an unknown id changes nothing |
| `Accounts.WithPublication` | index.js:153-158 | publish appends exactly one entry after the account's earlier publications and changes no other field or account |
| `Accounts.WithPicture` | index.js:256-258 | a picture upload replaces only that account's picture |
| `Accounts.PullAfterPush` | index.js:132-150 | pulling right after a push returns the pushed record verbatim, and other accounts read as before |
| `Accounts.PushAndPublishCommute` | index.js:132-163 | a progress push and a publish for the same account touch disjoint fields, so in either order both are visible afterwards |
| `Accounts.Profile` | index.js:184-196 | 404 exactly when no account has the id; otherwise the account's id, username, publications and picture |
| `Accounts.ProfileAfterPublish` | index.js:153-196 | after a publish, the profile of that account lists its earlier publications followed by exactly the new entry |
| `Accounts.Matching` | index.js:173-176 | every account from a position on whose username starts with the query ignoring ASCII case, projected to id, username and picture, in store order, each once |
| `Accounts.Search` | index.js:165-182 | 400 for an empty query; otherwise at most 10 distinct accounts in store order, each a match projected to id, username and picture; a matching account is missing only when 10 earlier ones were returned |
| `Accounts.MatchesPrefixExamples` | index.js:174 | "al" matches "alice" and "ALBERT" but not "balice" |
| `Conversations.Filter` | index.js:234-238 | the selected messages are exactly those of the collection that satisfy the condition, each as many times as it is stored |
| `Conversations.InsertByCreatedAt` | index.js:239 | inserting into a list sorted by creation time keeps it sorted and adds exactly the one message |
| `Conversations.SortByCreatedAt` | index.js:239 | the result is a permutation of its input, ordered oldest first |
| `Conversations.Conversation` | index.js:226-245 | 400 when either id is missing; otherwise exactly the stored messages between the two ids in either direction, a permutation of that selection, ordered non-decreasing by creation time |
| `Conversations.ConversationSymmetric` | index.js:234-238 | the conversation is the same whichever of the two ids comes first |
| `Conversations.Live` | index.js:58 | expiry removes exactly the messages created 24 hours or more before `now` and keeps the others |
| `Conversations.ExpiryWindow` | index.js:58 | a stored message survives expiry exactly while `now` is less than its creation time plus 24 hours |
| `Conversations.ConversationAfterExpiry` | index.js:226-245 | once expiry has run, a conversation holds every unexpired message between the two ids and nothing expired |
| `Conversations.ExpiryKeepsWellFormed` | index.js:45-59 | every message left after expiry still satisfies the message schema |
| `Server.Store.constructor` | index.js:75-76 | the store starts with no accounts and no messages |
| `Server.Store.Register` | index.js:88-108 | 400 on a missing credential, 409 on a taken username, 500 when the schema refuses a name shorter than 3 characters, and in each of these cases the store is unchanged; otherwise 201 with the new id, and exactly one account is appended with an empty picture, no publications and no live progress |
| `Server.Store.PushProgress` | index.js:132-141 | always 200; only the addressed account's live progress changes, and it becomes the payload |
| `Server.Store.Publish` | index.js:153-163 | always 200; only the addressed account gains one publication, `{timestamp: now, progress: payload}`, at the end |
| `Server.Store.SetProfilePicture` | index.js:247-263 | 400 with the store unchanged for an absent, empty or over-32768-character image (exactly 32768 is accepted); otherwise 200 and only that account's picture changes |
| `Server.Store.Send` | index.js:199-224 | 400 when any of the four fields is missing, 500 when content is over 200 characters, and in both cases nothing is stored; otherwise 201 and the message is appended once with `createdAt = now` |
| `Server.Store.Expire` | index.js:58 | the TTL sweep at `now`: accounts are untouched and the messages become exactly the unexpired ones |

## Left out

- HTTP routing, CORS, the 1 MB JSON body limit, logging, the liveness route `/`, the listening socket and environment configuration (index.js:7-25, 83-85, 200-203, 266-270). These are I/O plumbing.
- The database connection and store failures. The model does not include a 500 caused by a lost connection. It also does not include the cast error for a malformed ObjectId: ids are naturals. The only 500s modelled are the schema refusals (username under 3 characters, content over 200).
- Mongoose's casting of a request body into the progress schema is not modelled. That casting supplies defaults such as `upgradeCost` 200 and `adRewardMultiplier` 1.75, drops unknown fields and coerces types (index.js:28-38). The payload reaches the model already as a `Progress` value and is stored verbatim. Numeric fields are `real`: no handler computes with them, so floating-point behaviour plays no part.
- `Accounts.Search`: the query is matched as a literal prefix. The source builds a regular expression from the raw query without escaping (index.js:174), so metacharacters behave differently there, and an invalid pattern would give a 500. Case-insensitivity covers ASCII letters only, not Unicode case folding.
- `Accounts.Search`: store-native order is modelled as registration order. The database does not promise any particular order.
- `Conversations.Conversation`: the ordering between messages with equal creation times is left unspecified. The sort used keeps them in stored order, but the contract does not promise that.
- `Conversations.Live`: the contract does not state that surviving messages keep their relative order, although the definition does.
- The `trim` setter on usernames (index.js:66) is not modelled, nor how it interacts with the duplicate lookup.
- Expiry is not a background process here. It is an explicit `Expire(now)` step, and the conversation query does not filter expired messages by itself, just as the source does not.
- String lengths are counted in Unicode characters, not in JavaScript UTF-16 code units.
- Concurrency is left out: lost updates between simultaneous writers, and the race between the duplicate lookup and the save on the unique index.
