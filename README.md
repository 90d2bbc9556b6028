# Recipe sharing with push notifications: a Dafny model

This project gives a Dafny model of the core of a recipe-sharing web
application. Its back end is an Express/Mongoose API; its front end is a
React application with a Workbox service worker. The model covers:

- **Recipes** (`Recipes`, `MealModel`): the recipe ("meal") document and its
  embedded comments as the Mongoose schema declares them, and the
  controller handlers:
  - creating a recipe, stamped with its owner;
  - updating and deleting it, under a 404/403 owner check;
  - liking and disliking, which keep the reaction lists free of duplicates
    and disjoint;
  - adding a comment (content 1 to 1000 characters);
  - deleting a comment, checked in this order: recipe 404, comment 404,
    not the author 403.
- **Favorites** (`Favorites`, `UserModel`): adding a recipe to a user's
  favorites without duplicates, and removing it by `indexOf`/`splice`.
- **Registration and the contact form** (`Registration`, `ContactForm`,
  `EmailFormat`): required-field checks, then the shared email regular
  expression `^[^\s@]+@[^\s@]+\.[^\s@]+$`. Registration then checks for a
  duplicate email (409) and inserts the user with a hashed password.
- **Sessions** (`Login`, `AuthMiddleware`, `Logout`, `TokenModel`). A login
  stores a signed token. The middleware admits a request only if:
  - the `Bearer` header parses;
  - the token verifies;
  - the token is still stored.

  A logout deletes the stored token; stored tokens expire after seven days.
- **Meal import** (`MealImport`): `transformMeal`, which flattens the 20
  numbered ingredient and measure slots of a TheMealDB record into an
  ingredient list and normalises the optional text fields.
- **VAPID key decoding** (`VapidKey`): `urlBase64ToUint8Array`. It pads the
  key and maps the base64url alphabet (section 5 of RFC 4648) onto the
  standard one (section 4 of RFC 4648). Then it applies `atob` (the
  forgiving-base64 decode of the HTML standard) and copies the result into a
  byte array.
- **The service worker** (`ServiceWorker`):
  - POST-only interception; a failed POST is queued and announced to every
    controlled window with a synthetic offline response;
  - push fan-out to all open windows, or a notification when none is open;
  - the guarded replay triggers (an `ONLINE_STATUS_CHANGE` message and the
    60-second check).

The MongoDB collections are classes with `map` fields (meals, keyed by id)
or `seq` fields (users and tokens, where `findOne` returns the first
match). Fresh ids come from a counter. The libraries whose code is not part
of this model enter as function parameters:

- bcrypt `hash` and `compare`;
- jsonwebtoken `sign` and `verify`;
- the clock (`now`);
- network results;
- `navigator.onLine`.

JavaScript semantics that matter are made explicit:

- truthiness (`!x` on an optional string);
- `String.prototype.trim` and `\s`, by ECMAScript's white-space and
  line-terminator sets;
- `split(' ')[1]`;
- `indexOf` returning -1;
- `filter`;
- Mongoose's `required`, which rejects an empty string;
- `save()` validating while `findByIdAndUpdate` does not.

The messages between the worker and the pages:

- web-push-frontend/src/App.js:27 listens for a `SYNC_COMPLETED` message that
  custom-sw.js never posts, so the model has no such message.
- custom-sw.js:44 posts `REQUEST_QUEUED` through `matchAll({type: 'window'})`,
  which returns only the windows the worker controls; uncontrolled windows
  get nothing.
- custom-sw.js:115-118 posts a push to the pages as a `monevenementcustom`
  message carrying the payload, the type App.js:29 and subscription.js:35
  listen for.
- Replay order and failure handling belong to Workbox and are not asserted.

One behaviour of logout is stated as lemmas. `findOneAndDelete` removes one
matching record only. If the same token string is stored twice (two logins
signed in the same second with the same claims), the token is still admitted
after one logout (`Logout.DuplicateSurvivesLogout`): `jwt.sign` stamps only
the claims and the second of signing (`iat`, and `exp` seven days later), so
two such logins produce the same token. Revocation holds
whenever the token is stored at most once (`Logout.LogoutRevokes`).

## Model

| member | source | states |
|---|---|---|
| JsText.OrNull | web-push-backend/scrapping_bdd.js:21-28 | `x \|\| null` is null exactly when `x` is falsy (absent or empty), and `x` itself otherwise |
| JsText.Trim | web-push-backend/scrapping_bdd.js:11-12 | `trim()` never makes a string longer; the slice it keeps is characterised by `JsText.TrimCut` |
| JsText.TrimCut | web-push-backend/scrapping_bdd.js:11-12 | `trim()` keeps one contiguous slice, removes only white space on each side, and the kept slice starts and ends with a non-space |
| JsText.TrimEmptyIff | web-push-backend/scrapping_bdd.js:13 | a trimmed value is empty if and only if the original was all white space |
| JsText.TrimmedHasNoOuterSpace | web-push-backend/scrapping_bdd.js:11-12 | a non-empty trimmed string has no white space at either end, and trimming is idempotent |
| EmailFormat.PatternIffShape | web-push-backend/controllers/registerController.js:14-15 | the email regex accepts exactly the strings with no white space, exactly one `@` with something before it, and a `.` with at least one character between it and the `@` and at least one after it |
| EmailFormat.MatchesEmailPattern | web-push-backend/controllers/registerController.js:14-15 | the anchored pattern: a non-empty run of characters other than white space and `@`, an `@`, such a run, a `.`, and such a run; an accepted address has at least five characters, contains `@` and does not start with it |
| EmailFormat.AcceptsExampleAddress | web-push-backend/controllers/registerController.js:14-15 | `a@a.com` passes the email test |
| EmailFormat.RejectsTwoAts | web-push-backend/controllers/registerController.js:14-15 | an address with two `@` fails the email test |
| UserModel.FindFirst | web-push-backend/controllers/loginController.js:16 | a `findOne` query gives the first user in insertion order that matches, and nothing exactly when no user matches |
| UserModel.FindByEmail | web-push-backend/controllers/registerController.js:22 | `User.findOne({email})` returns the first user with that email, in insertion order, or nothing exactly when no user has it |
| UserModel.FindById | web-push-backend/controllers/users.controller.js:18 | `User.findById` returns a user with that id, or nothing exactly when no user has it |
| MealModel.ValidComment | web-push-backend/models/meal.model.js:3-21 | a comment passes the schema exactly when it has a `userId`, a non-empty `email`, and a `content` of 1 to 1000 characters |
| MealModel.ValidMeal | web-push-backend/models/meal.model.js:25 | a meal passes the schema exactly when it has a non-empty `strMeal`, ignoring the comments' own validation |
| MealModel.OnlyTitleRequired | web-push-backend/models/meal.model.js:23-50 | no path of a meal other than `strMeal` is required: two meals with the same `strMeal` are valid alike, ignoring the comments' own validation |
| MealModel.MealStore.constructor | web-push-backend/models/meal.model.js:52 | the meal collection starts empty, with every future id fresh |
| Recipes.OwnerlessIsLocked | web-push-backend/controllers/recipe.controller.js:46-48 | a recipe whose `createdBy` is null cannot be changed by any user |
| Recipes.IsOwner | web-push-backend/controllers/recipe.controller.js:46 | a user owns a recipe only when its `createdBy` is set |
| Recipes.Without | web-push-backend/controllers/recipe.controller.js:103 | the filter never lengthens a list and leaves no occurrence of the user |
| Recipes.WithoutCounts | web-push-backend/controllers/recipe.controller.js:103 | filtering a user out of a reaction list removes every occurrence of that user and keeps every other entry as often as it occurred |
| Recipes.WithoutMembers | web-push-backend/controllers/recipe.controller.js:103 | after the filter, an id is in the list if and only if it was before and is not the user |
| Recipes.WithoutAppend | web-push-backend/controllers/recipe.controller.js:121 | the filter distributes over concatenation, so the kept entries stay in order |
| Recipes.WithoutAbsent | web-push-backend/controllers/recipe.controller.js:121 | filtering out a user who is not in the list leaves it unchanged |
| Recipes.WithoutNoDuplicates | web-push-backend/controllers/recipe.controller.js:103 | filtering never introduces a duplicate |
| Recipes.AppendFreshNoDuplicates | web-push-backend/controllers/recipe.controller.js:101-102 | pushing a user who is not yet in the list keeps it free of duplicates |
| Recipes.Liked | web-push-backend/controllers/recipe.controller.js:101-104 | after a like the user is in `likes`; a first like also takes the user out of `dislikes`; no field other than the two lists changes |
| Recipes.Disliked | web-push-backend/controllers/recipe.controller.js:119-122 | after a dislike the user is in `dislikes`; a first dislike also takes the user out of `likes`; no field other than the two lists changes |
| Recipes.LikePreservesReactions | web-push-backend/controllers/recipe.controller.js:101-104 | liking keeps both reaction lists duplicate-free and disjoint |
| Recipes.DislikePreservesReactions | web-push-backend/controllers/recipe.controller.js:119-122 | disliking keeps both reaction lists duplicate-free and disjoint |
| Recipes.LikeEffect | web-push-backend/controllers/recipe.controller.js:101-104 | a first like appends the user to `likes`, removes every occurrence of the user from `dislikes`, keeps the other dislikes and changes no other field; a repeated like changes nothing |
| Recipes.DislikeEffect | web-push-backend/controllers/recipe.controller.js:119-122 | the same for a dislike, with the two lists exchanged |
| Recipes.LikeThenDislike | web-push-backend/controllers/recipe.controller.js:96-129 | liking twice is liking once; a dislike after a like leaves the user in `dislikes` and not in `likes` |
| Recipes.FindComment | web-push-backend/controllers/recipe.controller.js:177-178 | `comments.id(commentId)` finds the first comment with that id, and nothing exactly when no comment has it |
| Recipes.PullComment | web-push-backend/controllers/recipe.controller.js:186 | `pull` never adds a comment and leaves none with the pulled id |
| Recipes.PullRemovesOnlyThat | web-push-backend/controllers/recipe.controller.js:186 | with distinct comment ids, `pull` removes exactly the comment at that index and keeps the others in order |
| Recipes.PullAbsent | web-push-backend/controllers/recipe.controller.js:186 | pulling an id that no comment has leaves the comments unchanged |
| Recipes.ContentCheckMatchesSchema | web-push-backend/controllers/recipe.controller.js:146-149 | the controller's content check (`Recipes.CommentContentRejected`) rejects exactly what the comment schema's `required` and `maxlength: 1000` reject |
| Recipes.ContentBoundary | web-push-backend/controllers/recipe.controller.js:147 | `Recipes.CommentContentRejected` accepts 1000 characters and rejects 1001 characters, the empty string and a missing content |
| Recipes.ApplyPatch | web-push-backend/controllers/recipe.controller.js:50 | an update with no paths keeps the document; one that does not set `strMeal` cannot change whether the document is valid; one that does not set `createdBy` keeps the owner |
| Recipes.PatchProperties | web-push-backend/controllers/recipe.controller.js:50 | an update with no fields is a no-op, the same update twice is the update once, and the owner changes only when the body sets `createdBy` |
| Recipes.CreateRecipe | web-push-backend/controllers/recipe.controller.js:26-38 | the new recipe is the body with `createdBy` replaced by the requester's id (null without one), stored under a fresh id with 201; a recipe without `strMeal` fails validation, gives 500 and stores nothing |
| Recipes.UpdateRecipe | web-push-backend/controllers/recipe.controller.js:41-55 | 404 for a missing recipe, 403 unless the requester owns it, both leaving the store unchanged; otherwise exactly the provided fields are replaced, with no validation, and the new document is returned |
| Recipes.DeleteRecipe | web-push-backend/controllers/recipe.controller.js:58-72 | the same 404/403 checks; otherwise the recipe, and only it, is removed |
| Recipes.LikeRecipe | web-push-backend/controllers/recipe.controller.js:96-111 | 404 for a missing recipe; otherwise the liked document is saved and returned, or 500 with nothing saved when it fails validation |
| Recipes.DislikeRecipe | web-push-backend/controllers/recipe.controller.js:114-129 | the same for a dislike |
| Recipes.AddComment | web-push-backend/controllers/recipe.controller.js:144-169 | missing or too-long content gives 400 before any lookup; a missing recipe gives 404; otherwise one comment by the requester with that content and time is appended last under a fresh id and returned with 201; nothing else changes |
| Recipes.DeleteComment | web-push-backend/controllers/recipe.controller.js:172-194 | recipe 404, comment 404, a comment without author 500, not the author 403, in that order and without change; otherwise the comment is pulled and the recipe saved, or 500 on a validation failure |
| Registration.PrecheckOutcomes | web-push-backend/controllers/registerController.js:9-18 | missing fields give 400 first; with all fields present, a malformed email gives 400; otherwise the request passes to the duplicate check |
| Registration.Precheck | web-push-backend/controllers/registerController.js:9-18 | the prechecks answer only "missing fields" or "invalid email", and let a request through only with every field present and an email matching the pattern |
| Registration.NewUser | web-push-backend/controllers/registerController.js:30-33 | the new user has the given id, name and email, `hash(password)` as its password and no favorites |
| Registration.Register | web-push-backend/controllers/registerController.js:4-45 | the prechecks, then 409 for a registered email; only a successful registration changes the store; success appends exactly one user with the given name and email, `hash(password)` rather than the password, no favorites and a fresh id, and answers 201 |
| ContactForm.Submit | web-push-backend/app.js:56-97 | 400 with `success: false` for a missing field, else 400 for an email failing the regex, else 200 with `success: true` |
| ContactForm.AgreesWithRegistration | web-push-backend/app.js:70-71 | on the same email, the contact form and registration reject or accept it alike |
| ContactForm.AcceptsExampleSubmission | web-push-backend/app.js:82-88 | a well-formed submission gets 200 |
| Favorites.IndexOf | web-push-backend/controllers/users.controller.js:55-56 | `indexOf` is -1 exactly when the id is absent, else the first index holding it |
| Favorites.WithFavorite | web-push-backend/controllers/users.controller.js:26-28 | after adding, the recipe is a favorite, the earlier favorites stay first and in order, at most one entry is added, and nothing but the recipe is new |
| Favorites.WithoutFavorite | web-push-backend/controllers/users.controller.js:55-58 | removing a favorite shortens the list by one and takes exactly one occurrence of the recipe out of it |
| Favorites.AddProperties | web-push-backend/controllers/users.controller.js:26-29 | after adding, the recipe is a favorite; a new one is appended last and an existing one changes nothing; adding is idempotent |
| Favorites.AddKeepsNoDuplicates | web-push-backend/controllers/users.controller.js:25-29 | adding keeps a favorites list free of duplicates |
| Favorites.RemoveProperties | web-push-backend/controllers/users.controller.js:55-58 | removing splices out exactly the first occurrence and keeps the rest in order |
| Favorites.RemoveLeavesNone | web-push-backend/controllers/users.controller.js:55-58 | in a duplicate-free list, the removed recipe is no longer a favorite |
| Favorites.AddThenRemove | web-push-backend/controllers/users.controller.js:16-65 | removing a favorite just added restores the list |
| Favorites.AddFavorite | web-push-backend/controllers/users.controller.js:16-35 | 404 for a missing recipe; a missing user makes the handler throw (500); otherwise the user's favorites become the list with the recipe added, and no other user changes |
| Favorites.RemoveFavorite | web-push-backend/controllers/users.controller.js:50-65 | a missing user gives 500; a recipe that is not a favorite gives 404 with no change; otherwise its first occurrence is spliced out |
| TokenModel.CreateRecord | web-push-backend/models/token.js:3-7 | a token record is created exactly when a user id and a non-empty token are given, with `createdAt` defaulting to now |
| TokenModel.UnexpiredExactly | web-push-backend/models/token.js:6 | the seven-day expiry keeps exactly the records younger than seven days, each as often as before |
| TokenModel.Expired | web-push-backend/models/token.js:6 | a record is expired once 604 800 000 ms, seven days, have passed since `createdAt` |
| TokenModel.Unexpired | web-push-backend/models/token.js:6 | what the expiry keeps is never more than the records it had, and every kept record is one of them and unexpired |
| TokenModel.ExpiresAt | web-push-backend/controllers/loginController.js:26-30 | `exp` is `iat` plus seven days, in seconds; so `exp`, as milliseconds, is between 999 ms before and exactly the signing time plus seven days |
| TokenModel.RecordOutlivesToken | web-push-backend/controllers/loginController.js:26-33 | with signing before the record is created, the record is never purged while the token still verifies (`TokenModel.JwtExpired` is `jwt.verify`'s expiry test), and it is purged at most the create delay plus 999 ms after the token stops verifying |
| TokenModel.TokenExpiresBeforeRecord | web-push-backend/controllers/loginController.js:26-33 | the two expiries differ: a token signed and recorded 500 ms into a second stops verifying while its record is still kept |
| TokenModel.TokenStore.PurgeExpired | web-push-backend/models/token.js:6 | the store's expiry leaves exactly the unexpired records, in order |
| Login.CheckCredentials | web-push-backend/controllers/loginController.js:11-24 | 400 exactly when email or password is missing; acceptance exactly when the first user with that email has a password that `compare` matches; unknown email and wrong password both give the same 401 |
| Login.Login | web-push-backend/controllers/loginController.js:6-50 | refusals store nothing; on acceptance the token is `sign({id, email}, iat, exp)` with the signing second as `iat` and `exp` seven days later, one record `(user id, token, now)` is appended, and the reply carries the token and the user's id, name and email but no password |
| AuthMiddleware.Split | web-push-backend/middlewares/authMiddleware.js:11 | `split` always yields at least one part |
| AuthMiddleware.SplitFirst | web-push-backend/middlewares/authMiddleware.js:11 | the first part of `split` is the text up to the first separator |
| AuthMiddleware.SplitAfterWord | web-push-backend/middlewares/authMiddleware.js:11 | splitting a word, a separator and a rest gives the word followed by the parts of the rest |
| AuthMiddleware.BearerToken | web-push-backend/middlewares/authMiddleware.js:7-11 | for a header starting `Bearer `, `split(' ')[1]` is the text after the prefix up to the next space |
| AuthMiddleware.TokenStopsAtSpace | web-push-backend/middlewares/authMiddleware.js:11 | anything after a space following the token is ignored |
| AuthMiddleware.Authorize | web-push-backend/middlewares/authMiddleware.js:4-30 | a missing or non-`Bearer ` header is rejected as missing; a token that fails verification is rejected as invalid; a verified token is rejected as invalid when the `Token.findOne` lookup fails (the catch at :26-29), and as revoked when the store does not hold it (`TokenModel.HasToken`); otherwise the request is admitted with the decoded claims and the token |
| AuthMiddleware.AdmittedTokenIsStored | web-push-backend/middlewares/authMiddleware.js:13-29 | an admitted token is verified and stored (`TokenModel.HasToken`) and the store lookup did not fail; a request is admitted exactly when its Bearer token verifies and the working store holds it |
| AuthMiddleware.Run | web-push-backend/middlewares/authMiddleware.js:4-30 | a rejection sets 401 and does not call `next`; an admission sets `req.user` and `req.token` and calls `next` once |
| Logout.HoldersCount | web-push-backend/controllers/logoutController.js:11 | the number of records holding a token is zero exactly when none holds it |
| Logout.DeleteFirstEffect | web-push-backend/controllers/logoutController.js:11 | `findOneAndDelete` removes exactly one record holding the token when there is one, and leaves every record of another token as it was |
| Logout.DeleteFirst | web-push-backend/controllers/logoutController.js:11 | `findOneAndDelete` removes at most one record |
| Logout.DeleteFirstSplices | web-push-backend/controllers/logoutController.js:11 | the record removed is the first one holding the token, and the others keep their order |
| Logout.LogoutRevokes | web-push-backend/controllers/logoutController.js:3-18 | a token stored at most once is rejected by the middleware after logout, whether or not its store lookup fails |
| Logout.DuplicateSurvivesLogout | web-push-backend/controllers/logoutController.js:11 | a token stored twice is still admitted after one logout |
| Logout.Logout | web-push-backend/controllers/logoutController.js:3-18 | 400 without a token, 500 with no change when the store fails, otherwise the first record of that token is deleted and 200 |
| MealImport.TransformMeal | web-push-backend/scrapping_bdd.js:8-37 | the ingredients are those collected from slots 1 to 20; `idMeal` and `strMeal` are copied; the other text fields are null when falsy; the lists are empty and `createdBy` is null |
| MealImport.CollectedFromSlots | web-push-backend/scrapping_bdd.js:10-16 | every ingredient comes from one slot, in increasing slot order, and every non-blank slot gives one |
| MealImport.ContributingSlots | web-push-backend/scrapping_bdd.js:10-16 | one slot number per ingredient, each among those read, in increasing order |
| MealImport.AtMostOnePerSlot | web-push-backend/scrapping_bdd.js:10-16 | there are at most as many ingredients as slots read, so at most 20 |
| MealImport.SlotSkippedIff | web-push-backend/scrapping_bdd.js:11-15 | `MealImport.SlotEntry` skips a slot exactly when its ingredient is missing or all white space; a kept slot's ingredient and measure are trimmed |
| MealImport.OnlyLeadingSlotsRead | web-push-backend/scrapping_bdd.js:10 | only slots 1 to 20 influence the result |
| MealImport.AllSlotsFilled | web-push-backend/scrapping_bdd.js:10-16 | when every slot is filled, every slot gives an ingredient |
| VapidKey.PaddingLength | web-push-frontend/src/subscription.js:7 | the padding is at most three `=` and makes the length a multiple of 4 |
| VapidKey.PaddedLength | web-push-frontend/src/subscription.js:7 | the padded text's length is a multiple of 4, at most 3 longer |
| VapidKey.Padded | web-push-frontend/src/subscription.js:7-9 | the padded text is the input followed by `=` only, at most three of them, to a multiple of 4 |
| VapidKey.ReplaceAll | web-push-frontend/src/subscription.js:9 | a global replace of one character changes exactly its occurrences and keeps the length |
| VapidKey.ToStandardPointwise | web-push-frontend/src/subscription.js:9 | the two replaces change `-` into `+` and `_` into `/` and nothing else |
| VapidKey.ToStandard | web-push-frontend/src/subscription.js:9 | after the two replaces no `-` or `_` is left, and the length is kept |
| VapidKey.BinaryString | web-push-frontend/src/subscription.js:15 | the binary string has one character per byte, whose code is that byte |
| VapidKey.Atob | web-push-frontend/src/subscription.js:11 | a decoded `atob` result consists of characters below 256 |
| VapidKey.UnsextetsSextets | web-push-frontend/src/subscription.js:11 | decoding the unpadded 6-bit groups of any byte string gives back those bytes |
| VapidKey.StandardForm | web-push-frontend/src/subscription.js:7-9 | padding a padding-free base64url text and rewriting its alphabet gives the standard padded base64 text |
| VapidKey.AtobStandard | web-push-frontend/src/subscription.js:11 | `atob` of a standard padded base64 text gives back the encoded bytes |
| VapidKey.UrlBase64RoundTrip | web-push-frontend/src/subscription.js:6-17 | for every byte string, the pipeline decodes its padding-free base64url text back into it |
| VapidKey.CopyCharCodes | web-push-frontend/src/subscription.js:12-16 | the output array has the string's length and each element is the char code at that index |
| VapidKey.SextetsLength | web-push-frontend/src/subscription.js:7 | an unpadded encoding of n bytes has 4 characters per 3 bytes and 2 or 3 for a final 1 or 2, so its length is never 1 more than a multiple of 4 |
| VapidKey.UrlBase64ToUint8Array | web-push-frontend/src/subscription.js:6-18 | succeeds exactly when `atob` accepts the padded, rewritten text; then the array has the decoded length and each element is the char code at that index |
| ServiceWorker.FetchDecision | web-push-frontend/public/custom-sw.js:30-62 | only POST is intercepted; a successful fetch is answered with its own response; a failed one with the JSON `{success: true, offline: true, message}` response |
| ServiceWorker.PostedExactlyOnce | web-push-frontend/public/custom-sw.js:44-50 | each window `matchAll` returns receives the message exactly once after its earlier messages; other windows receive nothing |
| ServiceWorker.Posted | web-push-frontend/public/custom-sw.js:44-50 | one outbox per window; every outbox keeps what it had and grows by at most one message; a window `matchAll` does not return gets nothing |
| ServiceWorker.NotificationFor | web-push-frontend/public/custom-sw.js:104-106 | the notification shows the push's title and body as strings: a missing title is "undefined", a missing body is empty, and an explicit `null` is "null" in both |
| ServiceWorker.PushPlan | web-push-frontend/public/custom-sw.js:108-128 | windows are messaged exactly when the clients API exists and at least one window is open; otherwise one notification is shown |
| ServiceWorker.TriggersReplay | web-push-frontend/public/custom-sw.js:133 | a message triggers replay exactly when it has data, its type is `ONLINE_STATUS_CHANGE` and `online` is truthy |
| ServiceWorker.OtherTypesIgnored | web-push-frontend/public/custom-sw.js:133 | a message of any other type never triggers replay |
| ServiceWorker.PushWithWindows | web-push-frontend/public/custom-sw.js:110-120 | with the clients API and an open window, every window, controlled or not, gets the payload once |
| ServiceWorker.QueuedReachesControlled | web-push-frontend/public/custom-sw.js:44-50 | the queued notice reaches each controlled window once and no uncontrolled one |
| ServiceWorker.Worker.constructor | web-push-frontend/public/custom-sw.js:18-20 | the worker starts with an empty queue, no messages, no notifications and no replays |
| ServiceWorker.Worker.Broadcast | web-push-frontend/public/custom-sw.js:44-50 | the loop over the windows posts the message to every targeted window and changes nothing else |
| ServiceWorker.Worker.OnFetch | web-push-frontend/public/custom-sw.js:30-62 | the answer is the fetch decision; a failed POST appends exactly one queue entry and posts `REQUEST_QUEUED {url}` to every controlled window; otherwise the queue and the outboxes are unchanged |
| ServiceWorker.Worker.OnPush | web-push-frontend/public/custom-sw.js:101-129 | either every open window gets the payload and nothing is shown, or exactly one notification is added and nothing is posted |
| ServiceWorker.Worker.OnMessage | web-push-frontend/public/custom-sw.js:132-141 | a replay is started exactly when the message triggers one; nothing else changes |
| ServiceWorker.Worker.OnTick | web-push-frontend/public/custom-sw.js:144-153 | the periodic check starts a replay exactly when the browser is online; nothing else changes |

## Left out

- Query-only handlers are not modelled, because they are MongoDB query semantics and change nothing. These are `getAllRecipes`, `getRecipeById`, `getPopularRecipes`, `getSeasonalRecipes`, `listComments`, `getRecipesByName`, `getMyInfo`, `getMyFavorites`, `getPublicUserInfo` and `getAllUsers`.
- `populate` and `select` projections are not modelled, for the same reason.
- Express routing, the Swagger configuration and the front end's UI are not modelled.
- bcrypt and jsonwebtoken are function parameters, because their code is not part of this model. bcrypt's random salt and the cost factor 10 are therefore not represented.
- Database and network exceptions are modelled only where the handler's answer depends on them:
  - validation failures on `save()`;
  - a missing user in the favorites handlers;
  - a comment without `userId`;
  - the logout store failing (`storeFails`);
  - the middleware's `Token.findOne` failing (`storeFails` of `AuthMiddleware.Authorize`), which its catch answers 401 `Token invalide.`.

  The other handlers' connection errors, which give 500, are not.
- An id that is not a valid ObjectId (Mongoose `CastError`, answered 500) is not modelled: ids are natural numbers.
- The comment created by `addComment` has no `email`, although the comment schema requires one. The model stores it without one, because whether Mongoose rejects it depends on validator settings. `save()` validation is modelled for the meal's `strMeal` only; subdocument validation is not. In the program, `save()` also validates the comments, so once `addComment` has pushed such a comment (its `findByIdAndUpdate` at recipe.controller.js:157-161 runs without validators), `likeRecipe`, `dislikeRecipe` and `deleteComment` answer 500 on that recipe, while the model saves it.
- The user schema file (`models/User.js`) is not part of this model. A user is modelled as its id, name, email, password hash and favorite recipe ids.
- The `timestamps: true` fields `createdAt` and `updatedAt` of a recipe are not modelled.
- Strings are sequences of characters. Lengths (`content.length > 1000`, `base64String.length % 4`) are therefore counted in code points, not UTF-16 code units, which differ outside the Basic Multilingual Plane.
- The expiry of stored tokens is modelled as `PurgeExpired` at a given time. When MongoDB's TTL monitor runs is not modelled.
- `fetchAndSaveMeals` is not modelled, because it is a network and database loop. Only `transformMeal` is modelled.
- `subscribeUser`, `sendSubscription` and the `/notifications/subscribe` handler are not modelled, because they are push-subscription I/O.
- The service worker's replay is modelled only as a counted trigger: the Workbox queue's behaviour is not visible. What `replayRequests` does to the queue, its order and its per-entry failures are not represented, nor is the enforcement of the 24-hour retention (`MaxRetentionMinutes`).
- A failure of `pushRequest` itself, and therefore a rejected `respondWith`, is not modelled.
- A push event without a payload, where `event.data.json()` throws, is not modelled. The payload's `title` and `body` are each missing, `null` or a string; a number or an object there, which `showNotification` would also turn into a string, is not represented.
- ServiceWorker.PushData: only `title` and `body` are represented. The `monevenementcustom` message carries the whole parsed payload, so its other members are not modelled.
- ServiceWorker.MaxRetentionMinutes and ServiceWorker.ReplayIntervalMs are documentation only: they appear in no contract, because the retention is enforced by Workbox and the interval only schedules `OnTick`.
- Request bodies are modelled with string fields, or missing ones. A field of another JSON type is not represented: for example, a numeric `password` that `bcrypt.hash` rejects, giving 500, or a client-chosen `_id` in the body of `createRecipe`.
- AuthMiddleware.Authorize: `verify` stands for `jwt.verify` at the moment of the request, so the clock it reads is inside the parameter. JWT expiry is stated separately by `TokenModel.JwtExpired` and `TokenModel.RecordOutlivesToken`.
- The Workbox caching routes, precaching, and the `install`/`activate` handlers are not modelled, because they are library and platform behaviour.
- Races between replay triggers and the real-time behaviour of `setInterval` and `setTimeout` are not modelled.
- ServiceWorker.Worker: the set of open windows is fixed when the worker is constructed. Windows opening and closing are platform events outside the model.
