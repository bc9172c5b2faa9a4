# VoteXpress ballot core in Dafny

VoteXpress is a one-vote-per-user poll. An Express server keeps the options
(label, tally, creator) and the users in MongoDB, and pushes every change to
all browsers over socket.io. A React client keeps its own copy of the option
list in step with those pushes. This project models:

- the four vote routes of the server: create an option, list, cast a vote,
  delete an option;
- the CORS origin callback;
- the bearer-token `authenticate` middleware;
- the list reducers and state handlers of the React client: `App`,
  `HomePage` and `AdminPanel`.

It then proves properties of that model. Among them:

- a voter succeeds at most once when requests are served one after another;
- every route changes exactly what it should and nothing else;
- a client that fetched the GET listing and applies every later broadcast
  holds the server's stored documents, except after a cast whose second write
  failed. It differs from a fresh GET listing only in the creator field, which
  the GET populates and the broadcasts do not. The voted card therefore loses
  its "Created By" email, one of the findings below.

Modules, one per component:

- `Types`: the documents (`BallotOption`, `User`), an option's `Creator` (the
  stored id, or the `{ _id, email }` that `populate` puts in its place), the
  broadcast `Event` and the client's `Reply`.
- `JsString`: `startsWith`, `split` on one character, and `trim` with
  ECMAScript's white-space set.
- `Cors`: the `allowedOrigins` list and the origin callback, as written and as
  intended.
- `Auth`: `authenticate` as a decision function `Decide` and as a method on a
  request object. `jwt.verify` and `User.findById` are oracles passed in as
  function values.
- `Server`: the store as a value `Db`, with these parts:
  - `options`, a map from id to document;
  - `order`, the insertion order, taken as the order an unsorted
    `Vote.find()` returns;
  - `users`;
  - `events`, the log that `io.emit` appends to.

  Each route is a pure step function (`CreateStep`, `ListResponse`,
  `CastStep`, `DeleteStep`). The class `VoteServer` performs the same writes
  one store call at a time, and each of its methods is proved equal to its
  step function. `Step` and `Run` serve authenticated requests in sequence.
- `Consistency`: the server's listing related to the client's reducers.
- `VoteLists`: replace-by-id, append and filter-by-id, and the three socket
  handlers.
- `ClientApp`: the state cells of `App`, `fetchVotes`, the socket handlers and
  the route guards.
- `Home`: the vote button rules and `handleVote`.
- `Admin`: the input cell, `handleAddOption` and `handleDeleteOption`.

The model follows the code wherever the code departs from the system's stated
intentions:

- The already-voted check reads the user that `authenticate` loaded for this
  request. It does not read the store.
- The tally is incremented before `votedFor` is written. The two are separate
  store calls, and a throw between them leaves the tally bumped with no
  broadcast (`CastFault`).
- A cast on an id that is not stored still sets `votedFor` and broadcasts
  null.
- A delete answers 200 whether or not the id existed, and touches no voter.
- The only outcomes are 400, 401, 200/201 and a catch-all 500. There is no
  not-found outcome, and nothing is atomic.

## The two servers

backend/server.js and server.js hold the same four routes. Within them, the
only difference is the delete confirmation: server.js adds `success: true`,
which the `Variant` parameter of `DeleteStep` selects. The rows below cite
backend/server.js. The corresponding lines of server.js are:

| route | backend/server.js | server.js |
|---|---|---|
| create | 75-90 (guard 78, create 80-83, emit and 201 85-86) | 68-83 (71, 73-76, 78-79) |
| list | 93-100 | 86-93 |
| cast | 103-129 (check 108-110, increment 112-116, user 118-122, emit and 200 124-125) | 96-122 (101-103, 105-109, 111-115, 117-118) |
| delete | 132-142 (134-138) | 125-135 (127-131, with `success: true`) |

## Model

| member | source | states |
|---|---|---|
| `Cors.IndexOf` | backend/server.js:35 | the first position holding a string `===` to the origin, or -1 exactly when no string entry equals it; a RegExp entry is never equal |
| `Cors.OriginCallback` | backend/server.js:33-40 | allows exactly a missing or empty origin and the two string entries; every other origin is denied with the policy message |
| `Cors.LeadingDigits` | backend/server.js:23 | the greedy `\d+` run: all digits, and followed by a non-digit or the end |
| `Cors.LeadingDigitsOf` | backend/server.js:23 | on a digit string followed by a non-digit or the end, the greedy run is that digit string |
| `Cors.MatchesLanPattern` | backend/server.js:23 | `.test` of the RegExp entry: the prefix `http://192.168.` and then `Cors.LanRest` (a definition; its meaning is `Cors.LanPatternMeaning`) |
| `Cors.LanRest` | backend/server.js:23 | `\d+\.\d+:3000$` after the prefix: a greedy digit run, a dot, a greedy digit run and `:3000`, both runs nonempty (a definition) |
| `Cors.LanRestParts` | backend/server.js:23 | what follows the prefix in an admitted origin is a nonempty digit string, a dot, a nonempty digit string and `:3000` |
| `Cors.LanRestOf` | backend/server.js:23 | every such remainder is one the pattern accepts |
| `Cors.PrefixedLanRest` | backend/server.js:23 | the prefix followed by an accepted remainder is an admitted origin |
| `Cors.LanPatternParts` | backend/server.js:23 | an origin the pattern admits is the prefix, a nonempty digit string, a dot, a nonempty digit string and `:3000` |
| `Cors.LanPatternAdmits` | backend/server.js:23 | every origin of that shape is admitted |
| `Cors.LanPatternMeaning` | backend/server.js:23 | the pattern admits exactly the origins `http://192.168.<digits>.<digits>:3000` with both digit strings nonempty |
| `Cors.EntryMatches` | backend/server.js:21-25 | how an entry tests an origin: on a string entry it agrees with `indexOf`'s `===`; the RegExp entry tests the pattern |
| `Cors.AnyEntryMatches` | backend/server.js:21-25 | true exactly when some entry of the list admits the origin |
| `Cors.IntendedOriginCallback` | backend/server.js:21-40 | the callback testing every entry, the RegExp included; a denial carries the policy message |
| `Cors.IntendedExtendsWritten` | backend/server.js:21-40 | the intended callback admits exactly what the written one admits plus the origins matching the LAN pattern |
| `Cors.LanOriginRejectedAsWritten` | backend/server.js:23-37 | `http://192.168.1.5:3000` matches the listed pattern, is denied as written and admitted as intended |
| `JsString.StartsWith` | middlewares/auth.js:9 | `startsWith` holds exactly when the string is the prefix followed by some rest |
| `JsString.Split` | middlewares/auth.js:13 | `split` on one character yields at least one field, and no field holds the separator |
| `JsString.JoinSplit` | middlewares/auth.js:13 | joining the fields of a split gives back the string |
| `JsString.SplitJoin` | middlewares/auth.js:13 | splitting a join of separator-free fields gives back the fields |
| `JsString.SplitWord` | middlewares/auth.js:13 | a word without the separator splits into that word alone |
| `JsString.SplitAfterWord` | middlewares/auth.js:13 | splitting a separator-free word, the separator and a rest gives the word followed by the fields of the rest |
| `JsString.FirstField` | middlewares/auth.js:13 | the first field is the longest separator-free prefix, ended by the separator or the end of the string |
| `JsString.TrimStart` | frontend/src/components/AdminPanel.jsx:8 | a suffix of the input that does not start with white space, and everything dropped is white space |
| `JsString.TrimEnd` | frontend/src/components/AdminPanel.jsx:8 | a prefix of the input that does not end with white space, and everything dropped is white space |
| `JsString.Trim` | frontend/src/components/AdminPanel.jsx:8 | the result is a piece of the input that neither starts nor ends with white space, and everything before and after that piece is white space |
| `JsString.TrimEmptyIffBlank` | frontend/src/components/AdminPanel.jsx:8 | `trim()` yields the empty string exactly when the input is all white space |
| `Auth.WellFormedHeader` | middlewares/auth.js:9 | the guard passes exactly for a present header that is `Bearer ` followed by anything |
| `Auth.Token` | middlewares/auth.js:13 | field 1 of the header split on spaces is the space-free run right after `Bearer `, ended by a space or the end of the header |
| `Auth.DoubleSpaceGivesEmptyToken` | middlewares/auth.js:13 | with a second space after `Bearer` the token is the empty string |
| `Auth.BearerRoundTrip` | middlewares/auth.js:9-13 | a header `Bearer <token>` with a space-free token passes the prefix guard and yields exactly that token |
| `Auth.Truthy` | middlewares/auth.js:17 | `decoded?.id` is truthy exactly when the id is present and not the empty string (a definition) |
| `Auth.Decide` | middlewares/auth.js:4-35 | a missing or non-Bearer header gives "Unauthorized: Token missing"; a throwing verify or lookup gives "Invalid or expired token"; a payload without a truthy id gives "Invalid token payload"; no user gives "User not found"; one accepts exactly when the header is well formed, the payload id is truthy and the lookup finds a user, and then that user is accepted |
| `Auth.Authenticate` | middlewares/auth.js:4-35 | on acceptance `req.user` is the loaded user, `next` is called once and no reply is sent; on each rejection `next` is not called, `req.user` is untouched and the reply is a 401 with the decision's text |
| `VoteLists.ReplaceById` | frontend/src/App.js:58-61 | the length is kept; every entry with the update's id becomes the update; every other entry (all of them for a null update) is kept in place |
| `VoteLists.ReplaceAbsentIsIdentity` | frontend/src/App.js:60 | an update for an id the list does not hold, or a null update, changes nothing |
| `VoteLists.ReplaceIdempotent` | frontend/src/App.js:60 | applying one update twice is applying it once |
| `VoteLists.RemoveById` | frontend/src/App.js:70-71 | an entry survives exactly when it was present and has another id; the list never grows |
| `VoteLists.RemoveDistributes` | frontend/src/App.js:71 | filtering distributes over concatenation, so the survivors keep their order |
| `VoteLists.RemoveAbsentIsIdentity` | frontend/src/App.js:71 | removing an id the list does not hold changes nothing |
| `VoteLists.RemoveIdempotent` | frontend/src/App.js:71 | removing an id twice is removing it once |
| `VoteLists.ApplyEvent` | frontend/src/App.js:58-71 | `voteCreated` appends the record at the end and keeps the prefix; `voteUpdated` keeps the length |
| `VoteLists.ApplyEvents` | frontend/src/App.js:57-73 | the handlers applied in arrival order: updates alone keep the length, creates alone add one entry each, and without a create the list never grows |
| `VoteLists.ApplyEventsAppend` | frontend/src/App.js:57-73 | receiving two batches of broadcasts in turn is receiving their concatenation |
| `Server.Listing` | backend/server.js:95 | `Vote.find()` gives one document per id of the insertion order, at its position |
| `Server.Without` | backend/server.js:135 | the insertion order loses exactly the deleted id and stays duplicate-free |
| `Server.ListingAppend` | backend/server.js:80-83 | a new document that was not stored lists last, after the old listing unchanged |
| `Server.PopulateOne` | backend/server.js:95 | `populate("createdBy", "email")` on one document keeps id, label and tally; a creator id naming a user becomes that user's id and email, one naming nobody becomes null |
| `Server.Populate` | backend/server.js:95 | `populate` applied to each document of a listing, position by position |
| `Server.GetListing` | backend/server.js:95-96 | the body of a 200 answer to GET /api/votes: the stored listing with each creator populated (a definition) |
| `Server.AddKeepsWellFormed` | backend/server.js:80-85 | storing a new document under a fresh id, last in the order, and broadcasting it with its creator as an id keeps the store well formed |
| `Server.CastKeepsWellFormed` | backend/server.js:112-124 | rewriting documents in place, keeping their ids and creators, and broadcasting an unpopulated document keep the store well formed |
| `Server.CreateStep` | backend/server.js:75-90 | a missing or empty option is a 400 with no change; a throwing create is a 500 with no change; otherwise exactly one option is added with that label, the initial tally and the caller as creator, it lists last, users are untouched and `voteCreated` carries it; 201 exactly in that case |
| `Server.ListResponse` | backend/server.js:93-100 | every stored option in creation order with its creator populated: a creator id naming a user becomes that user's id and email; one entry per stored option; or a 500 |
| `Server.CastStep` | backend/server.js:103-129 | a caller whose `votedFor` is set gets 400 with no change and no event; a throwing increment is a 500 with no change; a throwing user update is a 500 after the tally was bumped, with no event; otherwise only the target's tally rises, by one, only the caller's `votedFor` becomes the target, one `voteUpdated` carries the incremented option (or null), and the 200 answer is that option and the updated user; 200 exactly when `votedFor` was unset and nothing threw |
| `Server.CastOnAbsentId` | backend/server.js:112-125 | a cast on an id that is not stored changes no tally, still sets `votedFor` to the id, broadcasts null and answers null with the updated user |
| `Server.DeleteStep` | backend/server.js:132-142 | unless the store throws (500 with no change), the id is gone from the store and the listing, users are untouched, `voteDeleted(id)` is broadcast and the confirmation is sent whether or not the id existed, with `success: true` only on the root server |
| `Server.VoteServer.constructor` | backend/server.js:11-17 | a fresh server holds no options and no broadcasts, and the registered users |
| `Server.VoteServer.CreateOption` | backend/server.js:75-90 | the store writes leave the server in the state `CreateStep` gives, with its response |
| `Server.VoteServer.ListOptions` | backend/server.js:93-100 | the response is the one `ListResponse` gives, the stored documents with their creators populated |
| `Server.VoteServer.CastVote` | backend/server.js:103-129 | the increment, the user update and the broadcast in sequence leave the state `CastStep` gives, with its response |
| `Server.VoteServer.DeleteOption` | backend/server.js:132-142 | the delete and the broadcast leave the state `DeleteStep` gives, with its response |
| `Server.Step` | middlewares/auth.js:22-25 | a listing changes nothing; otherwise the caller is reloaded from the users for each request, so a cast runs `CastStep` on the stored user |
| `Server.Run` | backend/server.js:75-142 | the requests served one at a time, in order: one response per request, and the store stays well formed |
| `Server.StepKeepsRecordedVote` | backend/server.js:108-110 | once a voter's `votedFor` is set, no request changes their record, and their casts get 400 "You have already voted" |
| `Server.SuccessfulCastRecordsVote` | backend/server.js:118-125 | a cast answered 200 leaves the caller's `votedFor` equal to the target |
| `Server.RejectedOnceVoted` | backend/server.js:108-122 | in a sequential run after a voter has voted, each of their casts gets 400 and their record never changes |
| `Server.AtMostOneSuccessfulCast` | backend/server.js:108-122 | in a sequential run a voter's casts succeed at most once, and never if they had already voted |
| `Consistency.ListingAfterIncrement` | backend/server.js:112-124 | the stored listing after an increment is the client's replace-by-id of the old stored listing with the broadcast option |
| `Consistency.ListingAfterDelete` | backend/server.js:135-137 | the server's listing after a delete is the client's filter-by-id of the old listing |
| `Consistency.CreateKeepsObservers` | backend/server.js:80-86 | a create either changes nothing or appends one `voteCreated` that turns the old stored listing into the new one |
| `Consistency.CastKeepsObservers` | backend/server.js:112-125 | a cast whose user update does not throw either changes nothing or appends one `voteUpdated` that turns the old stored listing into the new one, for an absent id too |
| `Consistency.DeleteKeepsObservers` | backend/server.js:135-138 | a delete either changes nothing or appends one `voteDeleted` that turns the old stored listing into the new one |
| `Consistency.StepKeepsObserversInStep` | backend/server.js:75-142 | every request except a half-done cast appends to the log, and the appended broadcasts turn the old stored listing into the new one |
| `Consistency.ReplayMatchesServer` | frontend/src/App.js:54-81 | a client holding the stored listing that applies every later broadcast holds the stored listing after any sequential run without half-done casts |
| `Consistency.HalfDoneCastLeavesObserversBehind` | backend/server.js:112-128 | a cast whose user update throws answers 500, broadcasts nothing and leaves observers with a tally one short |
| `Consistency.DepopulateOne` | backend/server.js:95 | forgetting a populated creator gives back its id and keeps every other field |
| `Consistency.Depopulate` | backend/server.js:95 | that forgetting applied position by position |
| `Consistency.DepopulateGetListing` | backend/server.js:93-96 | when every creator is a registered user, the GET listing is the stored listing with each creator populated, and differs from it in nothing else |
| `Consistency.DepopulateRemove` | frontend/src/App.js:70-71 | filter-by-id commutes with forgetting the populated creators |
| `Consistency.DepopulateCommutes` | frontend/src/App.js:58-71 | each socket handler commutes with forgetting the populated creators, for a broadcast whose document is unpopulated |
| `Consistency.DepopulateCommutesAll` | frontend/src/App.js:57-73 | so does a whole sequence of such broadcasts |
| `Consistency.CreateKeepsCreatorsRegistered` | backend/server.js:80-83 | a create names the reloaded caller as creator, so every creator stays a registered user |
| `Consistency.CastKeepsCreatorsRegistered` | backend/server.js:112-122 | a cast changes no creator and removes no user |
| `Consistency.StepKeepsCreatorsRegistered` | backend/server.js:75-142 | no request leaves an option whose creator is not a registered user |
| `Consistency.RunKeepsCreatorsRegistered` | backend/server.js:75-142 | nor does a sequential run |
| `Consistency.ClientCopyMatchesServer` | frontend/src/App.js:37-73 | a client that fetched the GET listing and applied every later broadcast holds, after a sequential run without half-done casts, the stored listing up to the populated creators, and so the server's GET listing up to the populated creators |
| `Consistency.PopulateReadsEmails` | backend/server.js:95 | `populate` reads only the users' ids and emails |
| `Consistency.ReplacePopulated` | frontend/src/App.js:58-61 | replacing one document of a populated listing by its populated new version gives the populated listing of the updated store, when users keep their ids and emails |
| `Consistency.PopulatedCastKeepsListing` | backend/server.js:112-124 | were `voteUpdated` to carry the populated document, a successful cast would turn the client's GET listing into exactly the new GET listing |
| `Consistency.PopulatedCreateKeepsListing` | backend/server.js:80-85 | were `voteCreated` to carry the populated document, a successful create would turn the client's GET listing into exactly the new GET listing |
| `ClientApp.AppState.constructor` | frontend/src/App.js:20-23 | the list starts empty, loading is on, there is no error, and the user is the auth context's |
| `ClientApp.AppState.FetchVotes` | frontend/src/App.js:37-52 | an ok answer becomes the list; a non-ok answer sets "Failed to fetch votes"; a throw sets its message, or "Something went wrong" when that is empty; the list is kept on failure; loading always ends |
| `ClientApp.AppState.OnBroadcast` | frontend/src/App.js:58-73 | each socket handler applies its reducer to the current list |
| `ClientApp.IsAdmin` | frontend/src/App.js:112 | `user?.role === "admin"`: a signed-in user whose role is `admin` (a definition) |
| `ClientApp.Route` | frontend/src/App.js:88-142 | "Loading..." exactly while loading; `/login` redirects an admin to `/admin`, another user to `/`, and shows the form only with no user; `/register` redirects any user to `/`; `/admin` renders the panel exactly for an admin |
| `Home.ButtonDisabled` | frontend/src/components/HomePage.jsx:52-54 | the button is disabled exactly when no user is signed in or the page's copy of the user has `votedFor` set (a definition) |
| `Home.ButtonLabel` | frontend/src/components/HomePage.jsx:57 | "Voted" exactly when the option's id is the user's `votedFor`, "Vote" otherwise |
| `Home.HandleVote` | frontend/src/components/HomePage.jsx:17-29 | a failed answer leaves the list and the user; a success replaces the entry with the returned option's id and makes the returned user the signed-in one |
| `Home.EnabledButtonIsAccepted` | frontend/src/components/HomePage.jsx:52-54 | when the page's copy of the user is the stored user and the button is enabled, the request that `authenticate` reloads the user for is accepted |
| `Home.DisabledButtonIsRejected` | frontend/src/components/HomePage.jsx:52-54 | a user whose stored `votedFor` is set is refused every cast with 400, and a current copy of that user shows the button disabled |
| `Home.StaleCopyRejected` | frontend/src/components/HomePage.jsx:52-54 | a page copy of the user with `votedFor` unset while the stored user has voted shows the button enabled, and the server refuses the cast with 400 |
| `Home.ButtonsAfterVoting` | frontend/src/components/HomePage.jsx:50-57 | after a successful cast the returned user disables every button, and exactly the options with the chosen id read "Voted" |
| `Home.OwnVoteSeenTwice` | frontend/src/components/HomePage.jsx:24-26 | the voter applies both the HTTP answer and the `voteUpdated` broadcast; in either order the list is the same as after one of them |
| `Home.CreatorEmail` | frontend/src/components/HomePage.jsx:48 | `vote.createdBy?.email` shows an email exactly for a populated creator, and then the creator's email |
| `Home.BroadcastCardLosesCreator` | frontend/src/components/HomePage.jsx:48 | after a cast, the voted card on a page that applied the broadcast shows no creator email, while a fresh GET shows the creator's email |
| `Admin.AdminPanel.constructor` | frontend/src/components/AdminPanel.jsx:4 | the input starts empty |
| `Admin.AdminPanel.SetNewOption` | frontend/src/components/AdminPanel.jsx:76 | typing replaces the input |
| `Admin.AdminPanel.HandleAddOption` | frontend/src/components/AdminPanel.jsx:7-37 | input that is blank after trimming sends nothing and changes nothing; otherwise the untrimmed input is sent; a failure keeps the list and the input; a success writes the rendered list with the returned record appended and clears the input |
| `Admin.AdminPanel.HandleDeleteOption` | frontend/src/components/AdminPanel.jsx:40-66 | a failure keeps the list; a success writes the rendered list without the entries that carry the id |
| `Admin.OwnCreationListedTwice` | frontend/src/components/AdminPanel.jsx:30 | when the HTTP answer is handled before the `voteCreated` broadcast, the admin's list holds the new option twice |
| `VoteLists.AppendOnce` | frontend/src/components/AdminPanel.jsx:30 | an append that adds a record whose id is not listed at the end, and otherwise replaces the entry carrying its id |
| `Admin.AppendOnceConverges` | frontend/src/components/AdminPanel.jsx:30 | with an append that replaces an already-listed id, the answer and the broadcast in either order list the option once |
| `Admin.StaleWriteDropsBroadcast` | frontend/src/components/AdminPanel.jsx:30-60 | in a scenario on the app state, another admin's option broadcast while a request is in flight enters the list, and is gone after the add handler writes the rendered list; broadcast again, it is gone after the delete handler does the same |
| `Admin.FunctionalUpdatesKeepBroadcast` | frontend/src/components/AdminPanel.jsx:30-60 | written as updates of the current list, both handlers keep every option with another id |

## Left out

- Concurrency. Requests are served one at a time. Two casts by one voter can
  both pass the check on their own stale snapshots, and that race is not
  modelled. The only partial write modelled is a user update that throws
  after the increment.
- socket.io transport. `io.emit` is an append to the event log. Delivery,
  connection logging and `server.listen` are not modelled. The client-side
  ordering of HTTP answers and broadcasts appears only in the `Admin` and
  `Home` lemmas.
- `populate("createdBy", "email")` is modelled only as far as the creator's
  id and email. The populated document has no other user fields.
- Listing order. `Vote.find()` has no sort, and MongoDB promises no order.
  The model takes the natural order to be insertion order (`order`).
- Consistency.ListingAfterIncrement: compares the client's copy with the
  stored, unpopulated documents.
  Equality with the GET body holds only up to the populated creator
  (`Consistency.ClientCopyMatchesServer`), and the listing order is taken to
  be insertion order.
- Consistency.CreateKeepsObservers: as above, against the stored documents,
  with the GET body matched up to the creator by
  `Consistency.ClientCopyMatchesServer`.
- Consistency.CastKeepsObservers: as above, against the stored documents,
  with the GET body matched up to the creator by
  `Consistency.ClientCopyMatchesServer`.
- Consistency.StepKeepsObserversInStep: as above, against the stored
  documents, with the GET body matched up to the creator by
  `Consistency.ClientCopyMatchesServer`.
- Consistency.ReplayMatchesServer: as above, against the stored documents,
  with the GET body matched up to the creator by
  `Consistency.ClientCopyMatchesServer`; insertion order stands for the
  order of an unsorted `find()`.
- `isAdmin`: the middleware is not part of this model, and its verdict is the
  `adminApproves` flag of a request. Its refusal is `NotAdmin`, with no
  status code.
- Mongoose defaults and ObjectIds. The initial tally and the new document's
  id are parameters (`initialTally`, `newId`), and a stored `newId` is a 500.
- Store exceptions. A malformed ObjectId, a lost connection or a duplicate
  key is a fault flag that leads to a 500. The exception message in its body
  is not modelled.
- The response user. User documents keep only id, email, role and
  `votedFor`. The cast's 200 answer returns the full updated document, and its
  other fields are not modelled.
- `jwt.verify`, the secret and the `select("-password")` lookup are oracles.
- Notifications: `showNotification`, its timer and the console logs.
- Static CORS configuration: the root server.js's fixed `CLIENT_URL`, and
  the socket.io CORS options of both servers.
- Header.jsx, LoginPage.jsx, AuthContext.js, index.js and RegisterPage are
  not part of this model. They are UI, form and storage glue.
- backend/config/connection.js and config/connection.js are not part of this
  model. They are database I/O.
- React rendering. The `votes` prop that the admin handlers close over is the
  `rendered` parameter. A re-render is not modelled.
- `Home.HandleVote`, `Admin.AdminPanel.HandleAddOption`,
  `Admin.AdminPanel.HandleDeleteOption`: a network error, a non-ok status and
  an unreadable body are the same `Failed` reply. The error text they show is
  not modelled.

## Findings

| source | as written | input that shows it | evidently intended | confidence | as-written member | corrected member |
|---|---|---|---|---|---|---|
| backend/server.js:23-35 | `allowedOrigins.indexOf(origin)` compares with `===`, so the RegExp entry never admits an origin | origin `http://192.168.1.5:3000` is denied | every LAN origin matching `/^http:\/\/192\.168\.\d+\.\d+:3000$/` is admitted | high, not executed | `Cors.LanOriginRejectedAsWritten` | `Cors.IntendedExtendsWritten` |
| frontend/src/components/AdminPanel.jsx:30 | the admin appends the created option, and the `voteCreated` handler (frontend/src/App.js:65-66) appends it again | a new option whose HTTP answer is handled before its broadcast: the list ends with it twice | the option listed once, as the server lists it | medium, not executed | `Admin.OwnCreationListedTwice` | `Admin.AppendOnceConverges` |
| frontend/src/components/AdminPanel.jsx:30-60 | both handlers write a list computed from the `votes` of the render in which the button was clicked | another admin's option broadcast while the request is in flight is overwritten | functional updates of the current list, as the socket handlers use | medium, not executed | `Admin.StaleWriteDropsBroadcast` | `Admin.FunctionalUpdatesKeepBroadcast` |
| frontend/src/components/HomePage.jsx:48 | the card shows `vote.createdBy?.email`, which only the GET listing (backend/server.js:95) populates; `voteUpdated` (backend/server.js:124) and `voteCreated` (85) carry the creator as a bare id | after any cast, every page that applied the broadcast shows the voted card without its creator | broadcasts populated like the listing, so a page's list stays the GET listing | medium, not executed | `Home.BroadcastCardLosesCreator` | `Consistency.PopulatedCastKeepsListing` |
