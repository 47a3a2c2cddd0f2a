# Flashcard service: a Dafny model of its handlers

The service stores users, collections of flashcards, the cards themselves,
per-user review progress (a spaced-repetition level from 1 to 5) and grants
that open a private collection to another user. It exists in two near-duplicate
iterations, modelled separately:

* **Iteration A** (`src/models/schema.js`, the `*sController.js` files,
  `studyController.js`, `initDb.js`, `src/middleware/admin.js`,
  `src/utils/validation.js`): modules `SchemaA`, `LevelsA`, `AccessA`,
  `ValidationA`, `StudyA`, `CardsA`, `CollectionsA`, `AuthA`, `AdminA`.
* **Iteration B** (`src/db/schema.js`, `cardController.js`,
  `collectionController.js`, `userController.js`, `checkToken.js`,
  `checkAdmin.js`, the zod schemas of `src/models/*.js`): modules `SchemaB`,
  `ValidationB`, `TokenB`, `CardsB`, `CollectionsB`, `UsersB`.
* Shared vocabulary: `Common` (identifiers, JSON bodies, partial-update
  fields, responses) and `Zod` (the subset of the validation library both
  iterations use, as schema data with an interpreter `Parse`/`ParseObject`).

Each database table is an immutable map keyed by its primary key. Iteration B's
`Revision` and `CollectionAccess` tables declare no key and are kept under an
abstract row id. Each handler is a pure function from the database and the
request to a response (`Ok(status, value)` or `Err(status, message)`), and,
for writers, the new database. Every contract states that a refused request
leaves the database unchanged. The database is taken to enforce its foreign
keys: the declared cascades happen, and an insert or a deletion that would
leave a key dangling is refused, which the handlers answer with 500. Foreign primitives are parameters of the
handlers:

* bcrypt hashing and comparison;
* JWT signing and verification;
* UUID generation, as a `newId` argument (a collision with an existing key
  fails the insert and answers 500);
* zod's email, URL and UUID format checks, as the `Formats` record;
* SQLite `LIKE`.

Time is an integer day count `now` (timestamps in iteration B).

## Model

| member | source | states |
|---|---|---|
| StudyA.NextLevel | src/controllers/studyController.js:45-58 | a first review gives level 1 whatever its outcome; a failure resets to 1; a success gives current+1 capped at 5 |
| StudyA.LevelStaysInRange | src/controllers/studyController.js:50 | a stored level in 1..5 stays in 1..5 after any review |
| StudyA.SuccessesClimb | src/controllers/studyController.js:46-50 | k successive successes from level l reach min(l+k, 5) |
| StudyA.SuccessesConverge | src/controllers/studyController.js:46-50 | from any level, four successes reach level 5; it stays there, and fewer than 5-l successes stay below 5 |
| StudyA.RecordRevision | src/controllers/studyController.js:6-111 | 400 for an invalid body, then 404 card, 404 collection, 403 without read access, 404 missing level, then 500 when a first review's user row is gone, each with no write; the review is recorded exactly when all of these pass; on success 201, last date = now, next date = now + the level's interval, exactly the (card, user) row is inserted or replaced, nothing else changes |
| StudyA.RecordRevisionSchedulesPowers | src/controllers/studyController.js:61-71 | with the seeded level table the next review is 2^(level-1) days after now |
| StudyA.SeededLevelAlwaysFound | src/controllers/studyController.js:40-98 | with the seeded level table and stored levels that reference it, "Level not found" never occurs, so a valid review of a readable card by an existing user is always recorded |
| StudyA.RecordRevisionKeepsValid | src/models/schema.js:40-48 | a recorded review, whatever the requester, keeps every revision's card, user and level references resolved |
| StudyA.ReviewedCardWaitsForSchedule | src/controllers/cardsController.js:243-256 | after a recorded review the card is absent from its collection's review listing until the scheduled day and listed from that day on; with the seeded table it is never listed on the day of the review |
| StudyA.GetCardRevision | src/controllers/studyController.js:126-172 | 404 card, 404 collection, 403 without access, 404 when the user never reviewed an accessible card, else 200 with that user's row |
| LevelsA.DefaultLevelsShape | src/initDb.js:4-10 | exactly five levels, ids 1..5 in order, intervals 2^(id-1) |
| LevelsA.DefaultDaysArePowers | src/initDb.js:5-9 | the interval of level l is 2^(l-1): 1, 2, 4, 8, 16 |
| LevelsA.DefaultDaysIncreasing | src/initDb.js:5-9 | a higher level has a strictly longer interval |
| LevelsA.Pow2Increasing | src/initDb.js:5-9 | powers of two grow strictly |
| LevelsA.Seed | src/initDb.js:16-27 | existing levels are skipped and kept; a new level gets the interval of its first occurrence; a non-UNIQUE insert error aborts at a level that is then absent |
| LevelsA.SeedFreshTable | src/initDb.js:4-27 | seeding an empty table, with no insert failing, gives exactly the five default levels |
| LevelsA.InitializeProvidesLevels | src/initDb.js:12-34 | when no missing level fails to insert, the run completes; levels 1..5 then exist, pre-existing intervals unchanged, new ones 2^(l-1) |
| LevelsA.InitializeAbortsIff | src/initDb.js:20-32 | initialisation aborts exactly when some missing default level fails to insert for a reason other than the UNIQUE constraint |
| LevelsA.InitializeIdempotent | src/initDb.js:16-27 | running initialisation again after a completed run leaves the table as it was, whatever inserts would fail the second time |
| LevelsA.SeedSkipsPresent | src/initDb.js:20-22 | seeding levels that all exist changes nothing |
| SchemaA.RemoveCard | src/models/schema.js:41 | deleting a card removes exactly that card and its revisions |
| SchemaA.RemoveCollection | src/models/schema.js:29-56 | deleting a collection removes its cards, their revisions and its grants, nothing else |
| SchemaA.RemoveUser | src/models/schema.js:39-56 | deleting a user removes their revisions and grants and leaves collections untouched |
| SchemaA.RemoveCardKeepsValid | src/models/schema.js:39-48 | the card cascade leaves no dangling revision |
| SchemaA.RemoveCollectionKeepsValid | src/models/schema.js:29-56 | the collection cascade leaves no dangling card, revision or grant |
| SchemaA.RemoveUserKeepsValid | src/models/schema.js:20-56 | a user deletion the database lets through, of a user who authored no collection, leaves no dangling author, revision or grant and keeps emails unique |
| ValidationA.RegisterRules | src/utils/validation.js:4-9 | registration accepts exactly an email, a password of 6..100 characters and name and firstName of 1..100 |
| ValidationA.LoginRules | src/utils/validation.js:11-14 | login accepts exactly an email and a password of at least 6 characters |
| ValidationA.CreateCollectionRules | src/utils/validation.js:17-21 | title 1..200, optional description up to 1000, optional boolean isPublic that parses to false when missing |
| ValidationA.UpdateCollectionRules | src/utils/validation.js:23-27 | every field optional, description may be null |
| ValidationA.CreateCardRules | src/utils/validation.js:30-36 | uuid collectionId, recto and verso 1..2000, each URL missing, null or a URL |
| ValidationA.UpdateCardRules | src/utils/validation.js:38-43 | every field optional, same bounds |
| ValidationA.RevisionRules | src/utils/validation.js:46-49 | a revision request is a uuid cardId and a boolean success, and the parsed request has exactly those two keys |
| CardsA.GetCardsByCollection | src/controllers/cardsController.js:7-39 | 404 missing collection, 403 without read access, else 200 with exactly the collection's cards |
| CardsA.GetCardById | src/controllers/cardsController.js:41-78 | 404 card, 404 collection, 403 without access, else 200 with the card |
| CardsA.CreateCard | src/controllers/cardsController.js:80-119 | 400, 404, 403 for a non-author with no write; on success only the author adds exactly one card, with missing URLs stored as null |
| CardsA.UpdateCard | src/controllers/cardsController.js:121-171 | 400, 404 card, 404 collection, 403 non-author, no write on error; only the fields present change, on this card only |
| CardsA.DeleteCard | src/controllers/cardsController.js:173-207 | 404, 404, 403 non-author; otherwise exactly that card and its revisions are removed |
| CardsA.CreateCardKeepsValid | src/models/schema.js:30-37 | card creation keeps the database consistent |
| CardsA.UpdateCardKeepsValid | src/models/schema.js:30-37 | card updates keep the database consistent |
| CardsA.DeleteCardKeepsValid | src/models/schema.js:39-48 | card deletion keeps the database consistent |
| CardsA.CardsToReviewAsWritten | src/controllers/cardsController.js:209-263 | the review listing as written: 404 or 403 as for reads, and only cards of the requested collection |
| CardsA.AsWrittenListsWholeCollection | src/controllers/cardsController.js:243-256 | as written, the review listing returns every card of the collection |
| CardsA.AsWrittenListsCardNotDue | src/controllers/cardsController.js:243-256 | a card due tomorrow is listed for review today |
| CardsA.CardsToReview | src/controllers/cardsController.js:209-263 | the corrected listing: same refusals; exactly the cards of the requested collection that the user never reviewed or whose next review date has passed |
| CollectionsA.GetAllCollections | src/controllers/collectionsController.js:7-36 | the left-join query lists exactly the collections the user may read (public, authored or granted), each with its author's name and first name, absent when no user row matches |
| CollectionsA.ViewsNameTheAuthor | src/controllers/collectionsController.js:17-21 | in a consistent database the joined author name columns always hold the author's names |
| CollectionsA.GetCollectionById | src/controllers/collectionsController.js:38-78 | 404 missing, 403 iff not public, not author and not granted, else 200 with the collection and its author's names |
| CollectionsA.CreateCollection | src/controllers/collectionsController.js:80-105 | 400 on invalid input; 500 with no write when the id is taken or the requester's user row is gone; succeeds exactly otherwise; the requester is the author; isPublic is false unless true was sent; an empty description is stored as null |
| CollectionsA.CreateCollectionKeepsValid | src/models/schema.js:20-28 | collection creation keeps every author resolved, whoever the requester |
| CollectionsA.UpdateCollection | src/controllers/collectionsController.js:107-147 | 400, 404, 403 non-author with no write; only the fields present change |
| CollectionsA.UpdateCollectionKeepsValid | src/models/schema.js:20-28 | a collection update keeps the database consistent |
| CollectionsA.DeleteCollection | src/controllers/collectionsController.js:149-174 | 404, 403 non-author; otherwise the collection, its cards, their revisions and its grants are removed |
| CollectionsA.DeleteCollectionKeepsValid | src/models/schema.js:29-56 | a collection deletion keeps the database consistent |
| CollectionsA.GrantAccess | src/controllers/collectionsController.js:176-226 | checks in the order 400, 404 collection, 403 non-author, 404 user, 400 existing grant; a grant is added exactly when all pass, and then exactly one |
| CollectionsA.RevokeAccess | src/controllers/collectionsController.js:228-253 | 404, 403 non-author; the author removes the grant whether or not it exists |
| CollectionsA.RevokeIdempotent | src/controllers/collectionsController.js:245-248 | revoking twice has the effect and answer of revoking once |
| CollectionsA.GrantThenRevoke | src/controllers/collectionsController.js:212-248 | after a grant the grantee can read the collection; revoking it restores the database |
| CollectionsA.GrantRevokeKeepValid | src/models/schema.js:50-56 | grant and revoke keep the database consistent |
| CollectionsA.SearchPublicCollections | src/controllers/collectionsController.js:255-285 | 400 iff the query is missing or blank; otherwise exactly the public collections whose title is LIKE %q%, each with its author's names |
| CollectionsA.GetMyCollections | src/controllers/collectionsController.js:287-305 | exactly the collections the user authored |
| CollectionsA.MineAreReadable | src/controllers/collectionsController.js:23-28 | every collection a user authored is in their list of readable collections |
| AuthA.Register | src/controllers/authController.js:9-55 | 400 invalid input; 400 for a taken email with nothing inserted; on success one user inserted with the hashed password and isAdmin false, and the answer has no password |
| AuthA.RegisterKeepsValid | src/models/schema.js:7 | registration keeps emails unique |
| AuthA.Login | src/controllers/authController.js:57-97 | 400 invalid input; unknown email and wrong password both answer 401 "Invalid credentials"; success only for the stored email with a matching password |
| AuthA.LoginSucceedsIff | src/controllers/authController.js:60-74 | with unique emails, login succeeds exactly when a user has that email and the password matches its hash |
| AuthA.GetProfile | src/controllers/authController.js:99-118 | 404 when the user no longer exists, else 200 with the record minus the password |
| AdminA.GetAllUsers | src/controllers/adminController.js:5-20 | lists every user, each as its public columns |
| AdminA.GetUserById | src/controllers/adminController.js:22-43 | 404 for an unknown id, else 200 with the public columns |
| AdminA.DeleteUser | src/controllers/adminController.js:45-71 | 404 before 400 for self-deletion, then 500 for the author of a collection, which the database refuses to delete; no write on any; otherwise exactly that user goes, with their revisions and grants |
| AdminA.DeleteUserKeepsValid | src/models/schema.js:39-56 | an admin deletion keeps the database consistent |
| AdminA.AdminMiddleware | src/middleware/admin.js:5-28 | 401 without a user id, 404 for an unknown user, 403 for a non-admin; the request goes on exactly when the stored user is an administrator |
| SchemaB.EmailsMayRepeat | src/db/schema.js:8 | a consistent database may hold two users with the same email |
| SchemaB.RemoveCard | src/db/schema.js:51 | deleting a card removes it and its review rows |
| SchemaB.RemoveCollections | src/db/schema.js:35-68 | deleting collections removes their cards, those cards' review rows and the collections' grants |
| SchemaB.RemoveUser | src/db/schema.js:23-68 | deleting a user removes their collections, those collections' cards and review rows and grants, and the user's own review and grant rows |
| SchemaB.RemoveCardKeepsValid | src/db/schema.js:48-59 | the card cascade leaves no dangling review row |
| SchemaB.RemoveCollectionsKeepsValid | src/db/schema.js:35-68 | the collection cascade leaves no dangling reference |
| SchemaB.RemoveUserKeepsValid | src/db/schema.js:23-68 | the user cascade chain leaves no dangling reference |
| ValidationB.UrlFieldRule | src/models/card.js:6-7 | a URL field accepts a missing value, null, the empty string or a URL |
| ValidationB.CreateCardRules | src/models/card.js:3-9 | recto and verso 1..500, URLs missing, null, empty or a URL, uuid collection_id |
| ValidationB.UpdateCardObjectRules | src/models/card.js:11-18 | every update field optional, same bounds |
| ValidationB.UpdateCardKeepsPresentKeys | src/models/card.js:11-18 | the parsed update holds exactly the schema keys that the body has |
| ValidationB.UpdateCardTextNotNull | src/models/card.js:12-13 | recto and verso never come out of the update schema as null |
| ValidationB.UpdateCardRules | src/models/card.js:11-18 | an update is accepted exactly when its fields are valid and at least one of them is present |
| ValidationB.CardIdRules | src/models/card.js:20-22 | the card id parameter must be a uuid |
| ValidationB.CreateCollectionRules | src/models/collection.js:3-7 | title 1..100, description required and at most 500, is_public a required boolean |
| ValidationB.CollectionTitleRules | src/models/collection.js:8-10 | the title parameter has the same 1..100 bound |
| ValidationB.CollectionIdRules | src/models/collection.js:12-14 | the collection id parameter must be a uuid |
| ValidationB.RegisterUserRules | src/models/user.js:3-8 | firstName and name 1..100, an email, a password of 6..100 |
| ValidationB.LoginUserRules | src/models/user.js:10-13 | an email and a password of at least one character |
| ValidationB.UserIdRules | src/models/user.js:15-17 | the user id parameter must be a uuid |
| ValidationB.UpdateReviewRules | src/models/review.js:3-5 | level_id is any number from 1 to 5: 2.5 is accepted, 0, 6 and a string are refused |
| TokenB.Split | src/middleware/checkToken.js:6 | splitting on single spaces gives at least one piece, none containing a space |
| TokenB.JoinSplit | src/middleware/checkToken.js:6 | the pieces joined by single spaces give the header back |
| TokenB.SplitJoin | src/middleware/checkToken.js:6 | space-free pieces joined by single spaces split back into the same pieces |
| TokenB.BearerTokenIff | src/middleware/checkToken.js:6-8 | a header yields token t exactly when it is "Bearer ", then t, and t has no space |
| TokenB.BearerTokenSome | src/middleware/checkToken.js:6-8 | a header yields a token exactly when it has the form "Bearer " + t for some t without a space, and then that t |
| TokenB.MalformedHeaders | src/middleware/checkToken.js:7 | a lower-case "bearer", a doubled space and a bare token are all malformed |
| TokenB.AuthorizationHeader | src/middleware/checkToken.js:4 | the lower-case header wins when non-empty; the header is missing when both spellings are missing or empty |
| TokenB.CheckToken | src/middleware/checkToken.js:3-17 | 401 "No token provided", 401 "Token malformed", 401 "Invalid token" in that order; it passes exactly when the header is "Bearer t" and t verifies, carrying the payload and its isAdmin |
| TokenB.CheckAdmin | src/middleware/checkAdmin.js:3-10 | a token refusal stands; a valid token whose isAdmin is not truthy gets 403; it passes exactly when the token passes with a truthy isAdmin, with no database involved |
| CardsB.GetOneCard | src/controllers/cardController.js:6-36 | for an existing card: 403 iff its collection is private and the caller is not the author; otherwise 201 with the URL columns under their renamed keys |
| CardsB.GetOneCardIgnoresGrants | src/controllers/cardController.js:20-22 | grants play no part in reading a card |
| CardsB.CreateCard | src/controllers/cardController.js:60-91 | the same 409 for a missing or someone else's collection; 409 for the same recto and verso in that collection only; on success exactly one card, URLs stored as sent |
| CardsB.CreateCardTwiceRejected | src/controllers/cardController.js:71-77 | creating the same card twice: the second attempt gets 409 |
| CardsB.CreateCardKeepsValid | src/db/schema.js:35-46 | card creation keeps the database consistent |
| CardsB.PatchOf | src/controllers/cardController.js:96 | a key of the update is missing exactly when the body lacks it |
| CardsB.ValidatedPatchIsWritable | src/models/card.js:11-18 | a body the update schema accepts is never empty and has no null recto or verso |
| CardsB.UpdateCard | src/controllers/cardController.js:93-121 | 409 missing card, 403 non-author, no write on either; on success only the keys present change, on this card only |
| CardsB.UpdateCardKeepsValid | src/db/schema.js:35-46 | card updates keep the database consistent |
| CardsB.DeleteCard | src/controllers/cardController.js:123-147 | 404 missing, 403 non-author, no write on either; otherwise exactly that card and its review rows go |
| CardsB.DeleteCardKeepsValid | src/db/schema.js:48-59 | card deletion keeps the database consistent |
| CollectionsB.GetOneCollection | src/controllers/collectionController.js:5-30 | for an existing collection: 403 iff private and the caller is not the author; otherwise 201 with title, description and author |
| CollectionsB.GetUserCollection | src/controllers/collectionController.js:32-46 | 409 iff the caller authored nothing; otherwise exactly the caller's collections |
| CollectionsB.GetPublicCollection | src/controllers/collectionController.js:48-63 | 409 iff nothing is public; otherwise exactly the public collections |
| CollectionsB.PublicCollectionIgnoresTitle | src/controllers/collectionController.js:48-56 | the answer does not depend on the title parameter |
| CollectionsB.CreateCollection | src/controllers/collectionController.js:65-85 | 409 when the caller already has a collection with this title; 500 when the caller's user row is gone or the id is taken; no write on either; otherwise one collection authored by the caller |
| CollectionsB.CreateCollectionTwiceRejected | src/controllers/collectionController.js:69-72 | creating the same title twice: the second attempt gets 409 |
| CollectionsB.CreateCollectionKeepsValid | src/db/schema.js:23-33 | collection creation keeps the database consistent, whoever the caller |
| CollectionsB.Patched | src/controllers/collectionController.js:97-103 | only the keys present change; the author never does |
| CollectionsB.UpdateCollectionAsWritten | src/controllers/collectionController.js:88-108 | the handler as written: 409 iff the collection is missing, then the update, whoever the caller is |
| CollectionsB.NonAuthorCanUpdate | src/controllers/collectionController.js:93-103 | a caller who is not the author renames someone else's collection |
| CollectionsB.UpdateCollection | src/controllers/collectionController.js:88-108 | corrected: 409 missing, 403 for anyone but the author, no write on either; only the keys present change |
| CollectionsB.UpdateCollectionAgreesForAuthor | src/controllers/collectionController.js:88-108 | the correction changes nothing for the author |
| CollectionsB.UpdateCollectionKeepsValid | src/db/schema.js:23-33 | collection updates keep the database consistent |
| CollectionsB.DeleteCollection | src/controllers/collectionController.js:110-126 | 409 unless both id and author match, with nothing deleted; otherwise the collection and everything hanging off it go |
| CollectionsB.DeleteCollectionKeepsValid | src/db/schema.js:35-68 | collection deletion keeps the database consistent |
| UsersB.Latest | src/controllers/userController.js:17 | the chosen user was created no earlier than any other candidate |
| UsersB.GetAllUsers | src/controllers/userController.js:5-23 | every user exactly once, without the password, newest first |
| UsersB.GetOneUser | src/controllers/userController.js:25-50 | 404 for an unknown id, else 200 with the public columns |
| UsersB.DeleteUser | src/controllers/userController.js:52-78 | 404 unknown, 403 for an administrator, no write on either; otherwise the user row is deleted and the database cascades the rest |
| UsersB.AdminsSurviveDeletion | src/controllers/userController.js:66-68 | no deletion request ever removes or alters an administrator |
| UsersB.DeleteUserKeepsValid | src/db/schema.js:23-68 | user deletion keeps the database consistent |

## Left out

- `src/controllers/reviewController.js` is not part of this model. It filters on a `next_review_date` column that iteration B's schema does not define. It treats a single joined row as a list. Its inner join makes its first-review branch unreachable. No coherent behaviour remains to state.
- Express wiring is not modelled: servers, routers, routes and the database handle. Iteration B handlers take typed, already-validated requests. The `ValidationB` lemmas state what the router's schemas let through.
- Iteration B's collection router imports an `updateCollectionSchema` that `src/models/collection.js` does not export. That is a module-loading failure, not handler logic, so it is not modelled.
- `src/middleware/validation.js`, a thin wrapper that turns a zod failure into 400, is not modelled. Iteration A's handlers call the schemas themselves and are modelled with their 400s.
- `src/db/seed.js` (seed data for tables absent from both schemas) is not modelled. Nor are `getUserRevisions`, `getAllLevels` and iteration B's `getCardsByCollection`, which reads a single row as a list.
- The catch-all 500 for an unexpected database or network failure is not modelled. Only the database failures the code provokes are: a key collision, an update with no value, NULL in a NOT NULL column.
- Whether SQLite enforces foreign keys depends on the connection, which neither iteration's code settles: `src/db/database.js:1-4` opens the file without setting it, and iteration A's `src/config/database.js` is not part of this model. The model takes enforcement on throughout, since both schemas rely on it for their cascades.
- zod counts string length in UTF-16 code units. The model counts characters.
- Request values arrive as JSON scalars. Arrays, objects and repeated query parameters are not modelled. For example, `q` given twice becomes an array in Express.
- The order of listings other than `getAllUsers` is not modelled: they are maps. So are the duplicate rows a join can produce.
- SQLite `LIKE`, bcrypt, JWT and UUID generation are uninterpreted parameters.
- Dates are whole days in iteration A, so DST and milliseconds are not modelled.
- CardsB.GetOneCard: the contract says nothing about a missing card. The handler's `.length == 0` test depends on what the driver returns for an absent row. The body answers 500, which is the catch path if that value is `undefined`.
- CollectionsB.GetOneCollection: for the same reason, the contract says nothing about a missing collection.
- AuthA.Login: with duplicate emails the query's `limit(1)` picks a row the model does not pin down. The schema's UNIQUE constraint rules duplicates out.
- The revision level's default of 1 is not modelled: every insert states the level explicitly, so the default is never used.
- Each handler is one atomic step. Concurrent requests and transactions are not modelled.

## Findings

| source | as written | input that shows it | evidently intended | confidence | as-written member | corrected member |
|---|---|---|---|---|---|---|
| src/controllers/cardsController.js:243-256 | the revision map holds only due revisions, so a card reviewed but not yet due has no entry and passes the `!revision` test: every card is listed | a card reviewed on day 10 at level 1 (next review day 11), listed on day 10 | list a card only when it was never reviewed or its next review date has passed | not executed | CardsA.AsWrittenListsCardNotDue | StudyA.ReviewedCardWaitsForSchedule |
| src/controllers/collectionController.js:93-103 | `updateCollection` checks only that the collection exists; any authenticated caller rewrites it, while tests/api.test.js:251-261 expects 403 for a non-owner | caller "mallory" retitles collection "c" authored by "alice": 201 | 403 for anyone but the author, like the card handlers | not executed | CollectionsB.NonAuthorCanUpdate | CollectionsB.UpdateCollection |
