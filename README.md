# Vacancy board and game catalogue backend, modelled in Dafny

The system is a Laravel JSON backend. It serves vacancies with departments and
three ordered item lists (responsibilities, requirements, conditions), job
applications with an optional résumé, contact proposals with a status, users
with roles and bearer-token authentication, and a small game catalogue with
genres, platforms, shared links, a main image and ordered screenshots.

The model keeps the database as one `Schema.Database` object. It has one field
per table (or group of tables): `users`, `tokens`, `departments`, `vacancies`,
`itemPools`, `itemPivots`, `applications`, `proposals` and `catalog`.

- A table is a map from auto-increment id to row together with the next id.
- Text pools (genres, platforms, vacancy items) are maps from natural key to id.
- Pivot tables are maps from parent to item set, or to item → `sort_order`.
- The public storage disk is a `Schema.Disk` object holding the set of stored paths.

The unique, foreign-key and cascade constraints of the migrations are the
invariant `Database.Valid()`. Every request handler is a method that changes
only the fields its `modifies` clause names. It keeps `Valid()`, and its
`ensures` states the answer and the new state. The larger handlers (game
`store`/`update`, `login`) are specified by a pure outcome function on the old
state, and lemmas state what that outcome means.

Modules, one per controller or model concern:

- `Support`: trimming, basenames, the `boolean`/`accepted` rules, `->first()`.
- `Pools`: `firstOrCreate` over text pools.
- `Views`: ordered relation views.
- `Schema`: rows, tables, invariants, the database.
- `Vacancies`, `Departments`, `Applications`, `Proposals`, `TokenAuth`, `Auth`
  and `Users`: the controllers and the middleware of those names.
- `GameViews`: the `mainImage` and `screenshots` relations.
- `GameImages`: the image blocks of game `store`/`update`.
- `GameLinks`: link resolution.
- `Games`: `GameController`.
- `GameInfo`: `GameInfoController`.

## Model

| member | source | states |
|---|---|---|
| Schema.Database.SetTokens | database/migrations/2025_11_18_122322_create_api_tokens_table.php:11-17 | committing a token table is allowed only when every token belongs to an existing user, token values are unique and at most 64 characters, while the expiry may be null; all other constraints still hold |
| Schema.Database.SetVacancies | database/migrations/2025_11_18_120852_create_vacancy_requirement_table.php:14-20 | vacancies, their pivots and applications are committed together only when every pivot row refers to an existing vacancy and item, each (vacancy, item) pair occurs once, and every application refers to an existing vacancy |
| Schema.Database.SetApplications | database/migrations/2025_11_18_120506_create_applications_table.php:14-24 | an application table is committed only when every row refers to an existing vacancy |
| Schema.Database.SetCatalog | database/migrations/2025_11_18_120710_create_game_info_table.php:14-40 | a catalogue is committed only when pivot rows refer to existing games and pool rows, each pair occurs once, link URLs are unique and each game has at most one main image |
| Pools.FirstOrCreate | app/Http/Controllers/VacancyController.php:156 | the key resolves to its existing row when there is one (pool unchanged), otherwise to a fresh id; no two keys share an id afterwards |
| Pools.Resolve | app/Http/Controllers/GameController.php:62-78 | resolving a list of names gives one id per name, each the pool's id of that name, and the pool gains exactly the missing names |
| Pools.ResolveIdempotent | app/Http/Controllers/GameController.php:62-78 | resolving the same list again changes neither the pool nor the ids |
| Pools.ResolveKnown | app/Http/Controllers/VacancyController.php:156 | names that are all in the pool create no row |
| Pools.Listing | app/Http/Controllers/GameInfoController.php:15-16 | `(id, name)` is listed exactly when the pool maps that name to that id |
| Views.OrderedView | app/Models/Vacancy.php:14-30 | an ordered relation lists every related item exactly once, with its sort order, in ascending sort order |
| Support.Trim | app/Http/Controllers/GameController.php:65 | the trimmed text has no leading or trailing blank and is empty exactly when the text is all blanks |
| Support.Basename | app/Http/Controllers/ProposalController.php:78 | the basename holds no `/` and is the last segment of the path without trailing slashes |
| Support.BasenameOfFile | app/Http/Controllers/ProposalController.php:78 | the basename of `dir/name` is `name` |
| Support.AcceptedIsTrue | app/Http/Controllers/ApplicationController.php:33 | a value the `accepted` rule lets through is true for `$request->boolean` |
| Support.FirstId | app/Http/Controllers/AuthController.php:19 | `->first()` finds the lowest id that satisfies the condition, or none when no row does |
| Vacancies.BuildSyncData | app/Http/Controllers/VacancyController.php:154-158 | the loop builds the pool that resolving the item texts gives, and the id → sort_order map of the resolved ids |
| Vacancies.SyncData | app/Http/Controllers/VacancyController.php:157 | the map's keys are exactly the ids, and a repeated id keeps its last sort order |
| Vacancies.Sync | app/Http/Controllers/VacancyController.php:149-160 | after sync, the vacancy's items are exactly the resolved texts, other vacancies keep their items, and the pool only gains the new texts |
| Vacancies.SyncOrders | app/Http/Controllers/VacancyController.php:157 | each item's sort order is the one given for its last occurrence, 0 when none was given |
| Vacancies.SyncIdempotent | app/Http/Controllers/VacancyController.php:149-160 | re-syncing the same list changes neither the pool nor the pivot |
| Vacancies.SyncKind | app/Http/Controllers/VacancyController.php:151-153 | a null list leaves pools and pivots unchanged, and the other two kinds are never touched |
| Vacancies.SyncKindValid | database/migrations/2025_11_18_120852_create_vacancy_requirement_table.php:16-19 | syncing keeps pivot rows on existing vacancies and items, one per pair |
| Vacancies.SyncPivotItems | app/Http/Controllers/VacancyController.php:149-160 | the helper moves the database's pools and pivots to the sync outcome and keeps it valid |
| Vacancies.BlankStatusAccepted | app/Http/Controllers/VacancyController.php:62-73 | a blank status is judged by the rules as if absent, and is written to the row as sent |
| Vacancies.AcceptedStatus | app/Http/Controllers/VacancyController.php:100 | an accepted status is absent, blank, or one of active, inactive and draft |
| Vacancies.ParseStatus | app/Http/Controllers/VacancyController.php:62 | a status is accepted exactly when it is active, inactive or draft |
| Vacancies.StatusRoundTrip | app/Http/Controllers/VacancyController.php:100 | every status reads back as itself |
| Vacancies.Store | app/Http/Controllers/VacancyController.php:56-90 | validation failure changes nothing; otherwise the new row holds exactly name, department and the status text as sent, and each supplied list is synced |
| Vacancies.Update | app/Http/Controllers/VacancyController.php:92-131 | an unknown id is "Vacancy not found" and an invalid request is a validation error, both changing nothing; otherwise only the supplied fields of that row change and the supplied lists are synced |
| Vacancies.DetachValid | database/migrations/2025_11_18_120852_create_vacancy_requirement_table.php:16 | removing a vacancy with its pivot rows keeps the pivot constraints |
| Vacancies.ApplicationsWithout | database/migrations/2025_11_18_120506_create_applications_table.php:16 | after the cascade, exactly the applications of other vacancies remain, unchanged |
| Vacancies.Destroy | app/Http/Controllers/VacancyController.php:133-147 | an unknown id changes nothing; otherwise the row goes, and its pivot rows and applications are cascaded away |
| Vacancies.ActiveVacancies | app/Http/Controllers/VacancyController.php:22 | the public listing (and its count) holds exactly the vacancies whose status is active |
| Vacancies.Relation | app/Models/Vacancy.php:14-30 | each relation lists the vacancy's items once each, with their pivot sort orders, ascending |
| Vacancies.Show | app/Http/Controllers/VacancyController.php:39-54 | any existing vacancy is shown whatever its status, with its three ordered lists; an unknown id is "Vacancy not found" |
| Departments.Store | app/Http/Controllers/DepartmentController.php:21-39 | a department is created exactly when the name is present, at most 20 characters and not taken; otherwise nothing changes |
| Departments.StoreRejectsTakenName | app/Http/Controllers/DepartmentController.php:25 | an existing department's name is rejected |
| Departments.Update | app/Http/Controllers/DepartmentController.php:41-61 | an unknown id is not-found; a name held by another department is rejected; on success only the name changes |
| Departments.OwnNameAccepted | app/Http/Controllers/DepartmentController.php:46 | a department may keep its own current name |
| Departments.UsedBy | app/Http/Controllers/DepartmentController.php:67-68 | the in-use count counts exactly the vacancies of that department |
| Departments.Destroy | app/Http/Controllers/DepartmentController.php:63-83 | a department used by vacancies is a conflict that reports their number and changes nothing; an unused one is removed |
| Applications.NewApplication | app/Http/Controllers/ApplicationController.php:32-39 | the row is bound to the given vacancy, copies the fields, has privacy agreement true and has a résumé path exactly when a file was uploaded |
| Applications.Store | app/Http/Controllers/ApplicationController.php:12-44 | an unknown vacancy is not-found, invalid fields are a validation error and a bad email is 422, all creating nothing; otherwise one row is created and the résumé stored |
| Applications.Download | app/Http/Controllers/ApplicationController.php:58-77 | a résumé downloads exactly when `applications/resumes/` + filename is stored, under that filename; otherwise "File not found" |
| Applications.StoredResumeDownloads | app/Http/Controllers/ApplicationController.php:36-39 | a résumé just stored downloads under its stored name |
| Applications.Destroy | app/Http/Controllers/ApplicationController.php:79-85 | an existing application is removed; an unknown id is not-found and changes nothing |
| Proposals.ParseStatus | app/Http/Controllers/ProposalController.php:59 | a status is accepted exactly when it is one of the four names |
| Proposals.StatusRoundTrip | app/Http/Controllers/ProposalController.php:59 | every status reads back as itself |
| Proposals.NewProposal | app/Http/Controllers/ProposalController.php:29-35 | a new proposal starts in status `новый`, and has a file path exactly when an attachment was uploaded |
| Proposals.Store | app/Http/Controllers/ProposalController.php:11-40 | invalid fields or a bad email create nothing; otherwise exactly one proposal is created and the attachment stored |
| Proposals.UpdateStatus | app/Http/Controllers/ProposalController.php:54-65 | any of the four statuses may be set from any status and only the status changes; an unknown id or another value changes nothing |
| Proposals.Download | app/Http/Controllers/ProposalController.php:67-87 | unknown id, empty `file_src` ("No file attached") and a missing stored object ("File not found") are refused; otherwise the stored path is served under its basename, a name without `/` |
| Proposals.StoredAttachmentDownloads | app/Http/Controllers/ProposalController.php:32-35 | an attachment just stored downloads under its stored name |
| Proposals.Destroy | app/Http/Controllers/ProposalController.php:89-94 | an existing proposal is removed; an unknown id is not-found and changes nothing |
| TokenAuth.Lookup | app/Http/Middleware/TokenAuth.php:20-28 | the lookup finds a token with that value that is unexpired (null expiry, or expiry after now), or none when no such token exists |
| TokenAuth.Authenticate | app/Http/Middleware/TokenAuth.php:12-34 | a missing (or falsy) bearer is "missing token"; a bearer with no unexpired match is "invalid or expired token"; success names a matching unexpired token |
| TokenAuth.AuthenticatesAs | app/Http/Middleware/TokenAuth.php:20-28 | a stored unexpired token authenticates as exactly its own record |
| TokenAuth.Handle | app/Http/Middleware/TokenAuth.php:30-31 | on success the request carries the matched token record and its owner, who exists; on failure the request is untouched; the token table is never written |
| Auth.UserByLogin | app/Http/Controllers/AuthController.php:19 | finds a user with that login, or none when no user has it |
| Auth.ActiveToken | app/Http/Controllers/AuthController.php:25-30 | finds the user's first unexpired token, or none when every token of the user has expired |
| Auth.Issue | app/Http/Controllers/AuthController.php:44-59 | a new token whose value is free and at most 64 characters is inserted with expiry now + 30 days and becomes the user's active token; a clashing value inserts nothing |
| Auth.LoginOutcome | app/Http/Controllers/AuthController.php:12-60 | bad input or credentials fail and create no token; an existing active token is reused with the table unchanged; otherwise exactly one new token is issued |
| Auth.Login | app/Http/Controllers/AuthController.php:12-60 | the handler's answer and new token table are the login outcome, and the database stays valid |
| Auth.RepeatedLogin | app/Http/Controllers/AuthController.php:25-59 | a second login right after a successful one returns the same token, marked as reused, and writes nothing |
| Auth.LoginThenAuthenticate | app/Http/Middleware/TokenAuth.php:20-31 | the token a login returns authenticates as the logged-in user |
| Auth.Logout | app/Http/Controllers/AuthController.php:62-73 | exactly the attached token record is deleted; without one the answer is "No active token" and nothing changes |
| Auth.Revoke | app/Http/Controllers/AuthController.php:67-68 | deleting one token keeps the token constraints |
| Auth.RevokedFails | app/Http/Controllers/AuthController.php:62-73 | a revoked token no longer authenticates |
| Users.AdminGate | app/Http/Controllers/UserController.php:16-18 | the gate lets a caller through exactly when the caller's role is `admin` |
| Users.Index | app/Http/Controllers/UserController.php:14-25 | a non-admin is refused; an admin gets every user with a role, listed by login and role name |
| Users.StoreRejects | app/Http/Controllers/UserController.php:29-33 | a taken login or a password under six characters is rejected |
| Users.Store | app/Http/Controllers/UserController.php:27-42 | with no admin check, a valid request creates exactly one user, answered by id, login and role only; an invalid one changes nothing |
| Users.UpdateRole | app/Http/Controllers/UserController.php:44-56 | with no admin check, only the role of an existing user changes, to an existing role |
| Users.UpdatePassword | app/Http/Controllers/UserController.php:58-76 | a wrong old password is an `old_password` error and the stored password stays; otherwise only the caller's password changes |
| Users.ResetPassword | app/Http/Controllers/UserController.php:78-97 | only an admin may reset, and only the target's password changes |
| Users.Edited | app/Http/Controllers/UserController.php:130-136 | the role changes only when supplied, the password whenever supplied (a blank one included), and the login never |
| Users.EditNothing | app/Http/Controllers/UserController.php:130-136 | an update that supplies neither a role nor a password leaves the user as it was |
| Users.BlankPasswordSaved | app/Http/Controllers/UserController.php:121-136 | a blank password passes the rules without six characters or a confirmation, and is hashed and saved like any other |
| Users.Update | app/Http/Controllers/UserController.php:111-141 | non-admins are refused and unknown ids are not-found, both changing nothing; a filled password needs six characters and the confirmation accepted, a blank one neither; the answer exposes id, login and role only |
| Users.RemoveUser | database/migrations/2025_11_18_122322_create_api_tokens_table.php:13 | deleting a user removes exactly that user's tokens and keeps all others |
| Users.RemovedUserHasNoTokens | database/migrations/2025_11_18_122322_create_api_tokens_table.php:13 | no token of a deleted user survives |
| Users.Destroy | app/Http/Controllers/UserController.php:143-158 | non-admins are refused and an admin deleting themself gets 400, both changing nothing; otherwise the user and their tokens go |
| GameViews.MainImage | app/Models/Game.php:35-38 | `mainImage` is one of the game's images with `is_main`, or none when the game has no such image |
| GameViews.MainImageIsTheMain | app/Models/Game.php:35-38 | with at most one main image, an image of the game is `mainImage` exactly when it has `is_main` |
| GameViews.Screenshots | app/Models/Game.php:40-45 | `screenshots` lists exactly the game's non-main images, once each, in ascending sort order |
| GameViews.Partition | app/Models/Game.php:30-45 | each image of a game is in exactly one of `mainImage` and `screenshots` |
| GameViews.MaxOrder | app/Http/Controllers/GameController.php:204-206 | the value is the largest screenshot sort order of the game, and 0 without screenshots |
| GameImages.AppendScreenshots | app/Http/Controllers/GameController.php:89-99 | the upload loop adds exactly the appended rows and stored paths |
| GameImages.AppendedAbove | app/Http/Controllers/GameController.php:204-214 | appended sort orders are pairwise distinct, grow in upload order and lie above every sort order up to the base |
| GameImages.DeleteImages | app/Http/Controllers/GameController.php:195-202 | the delete loop removes exactly the given rows and their stored objects |
| GameImages.Unkept | app/Http/Controllers/GameController.php:196-201 | the rows pruned are exactly the game's screenshots not in the keep-list |
| GameImages.MainImageStepEffect | app/Http/Controllers/GameController.php:172-193 | delete or replace removes exactly the current main image and its object once, even when both are asked for; an upload adds one main image with sort order 0; every other row stays |
| GameImages.MainImageStepValid | app/Http/Controllers/GameController.php:172-193 | after the main-image blocks the game has at most one main image: the uploaded one, or none after a deletion |
| GameImages.StoreImagesMain | app/Http/Controllers/GameController.php:80-87 | `store` makes the uploaded main image the game's main image, with `is_main` and sort order 0 |
| GameImages.StoreImagesScreenshots | app/Http/Controllers/GameController.php:89-99 | the new game's screenshots are exactly the rows created for the uploads, with the ids after the main image |
| GameImages.StoreScreenshotRows | app/Http/Controllers/GameController.php:89-99 | upload `k` becomes a screenshot of the new game stored under `games/screenshots/` with sort order `k + 1` |
| GameImages.StoreImagesFiles | app/Http/Controllers/GameController.php:80-99 | `store` puts the main upload and every screenshot upload on the disk and removes nothing |
| GameImages.StoreImageBlocks | app/Http/Controllers/GameController.php:80-99 | the image loops of `store` compute the image outcome |
| GameImages.UpdateImagesValid | app/Http/Controllers/GameController.php:172-214 | `update` keeps at most one main image per game, and pruning and appending do not change the main image |
| GameImages.UpdateImagesMain | app/Http/Controllers/GameController.php:172-193 | after `update` the main image is the upload if one was sent, none after a deletion alone, and the old one otherwise |
| GameImages.UpdateImagesKept | app/Http/Controllers/GameController.php:195-202 | a screenshot survives exactly when no keep-list was sent or it is in the list; survivors are untouched; any other screenshot is new |
| GameImages.UpdateImagesBase | app/Http/Controllers/GameController.php:204-206 | the append base is at least every screenshot's sort order as first loaded |
| GameImages.UpdateImagesAppended | app/Http/Controllers/GameController.php:204-214 | upload `k` becomes a screenshot of the game with sort order base + k + 1 |
| GameImages.UpdateImagesStored | app/Http/Controllers/GameController.php:206-207 | every uploaded screenshot is stored on the disk |
| GameImages.UpdateImagesOrdered | app/Http/Controllers/GameController.php:204-214 | every remaining earlier screenshot sorts strictly before every new one, and the new ones sort in upload order |
| GameImages.UpdateImageBlocks | app/Http/Controllers/GameController.php:172-214 | the image loops of `update` compute the image outcome |
| GameLinks.LinkByUrl | app/Http/Controllers/GameController.php:247 | the lookup finds the link with that URL, or none exists |
| GameLinks.FindOrCreate | app/Http/Controllers/GameController.php:108-111 | an existing URL resolves to its link, which keeps its label; a new URL creates one link with the given label; URLs stay unique |
| GameLinks.StoreLinks | app/Http/Controllers/GameController.php:101-118 | every accepted item resolves to a link with its URL; existing links are unchanged |
| GameLinks.StoreLinkLoop | app/Http/Controllers/GameController.php:101-118 | the `store` link loop computes that resolution |
| GameLinks.KnownLinksFound | app/Http/Controllers/GameController.php:108-111 | when every URL is already known, no link is created or changed |
| GameLinks.StoreLinksIdempotent | app/Http/Controllers/GameController.php:101-118 | resolving the same items again changes nothing and gives the same ids |
| GameLinks.UpdateStep | app/Http/Controllers/GameController.php:220-258 | an item without a valid URL is skipped; a known id is updated in place; otherwise the URL's link is reused with its label updated, or a link is created; moving a known id onto another link's URL is a unique-key failure |
| GameLinks.UpdateLinks | app/Http/Controllers/GameController.php:216-265 | the link fold keeps URLs unique and never loses a link; without failure it resolves one id per accepted item |
| GameLinks.FailureFinal | app/Http/Controllers/GameController.php:270-275 | once an item fails, later items change nothing |
| GameLinks.UpdateLinkLoop | app/Http/Controllers/GameController.php:220-264 | the `update` link loop computes the fold, stopping at a failing item |
| Games.EditNothing | app/Http/Controllers/GameController.php:152 | an update without name, description or trailer leaves the game row as it was |
| Games.ResolveNames | app/Http/Controllers/GameController.php:62-78 | the name loop resolves the trimmed names to their pool ids |
| Games.SyncSet | app/Http/Controllers/GameController.php:264 | after `sync` the game's set is exactly the given ids, and other games keep theirs |
| Games.SyncedNames | app/Http/Controllers/GameController.php:62-78 | after sync the game's genres (or platforms) are exactly the pool rows of the trimmed names |
| Games.SyncNamesIdempotent | app/Http/Controllers/GameController.php:154-170 | re-submitting the same list changes neither the pool nor the pivot |
| Games.SyncNamesRefs | database/migrations/2025_11_18_120710_create_game_info_table.php:14-26 | syncing keeps pivot rows on existing games and pool rows |
| Games.SyncLists | app/Http/Controllers/GameController.php:154-170 | an absent list leaves that pool and pivot unchanged, and nothing else is touched |
| Games.SyncListsLoop | app/Http/Controllers/GameController.php:154-170 | the two sync blocks compute the list outcome |
| Games.StoreValid | app/Http/Controllers/GameController.php:42-130 | `store` keeps the catalogue constraints |
| Games.StoreAnswer | app/Http/Controllers/GameController.php:46-60 | `store` fails, changing nothing, exactly when validation fails (turned into a 500 by the catch-all); otherwise it answers the new game's fresh id |
| Games.StoreLists | app/Http/Controllers/GameController.php:60-78 | the new game is exactly the input's fields, and its genres and platforms are exactly the trimmed names |
| Games.StoreImagesOutcome | app/Http/Controllers/GameController.php:80-99 | the images and stored files after `store` are the image outcome for a game with no previous images |
| Games.StoreLinkStageEffect | app/Http/Controllers/GameController.php:101-118 | existing links are unchanged, and the game is linked exactly to links carrying the accepted URLs, each URL covered |
| Games.StoreLinksOutcome | app/Http/Controllers/GameController.php:101-118 | the links after `store` are the link stage applied to the new game |
| Games.KeepList | app/Http/Controllers/GameController.php:195-197 | a sent keep-list prunes, and an empty one keeps nothing |
| Games.Edited | app/Http/Controllers/GameController.php:152-170 | the fields and lists of `update` are applied before the image blocks |
| Games.EditedValid | app/Http/Controllers/GameController.php:152-214 | the field, list and image stages of `update` keep the catalogue constraints |
| Games.UpdateValid | app/Http/Controllers/GameController.php:132-276 | `update` keeps the catalogue constraints, also after a failure part-way through the links |
| Games.UpdateAnswer | app/Http/Controllers/GameController.php:132-276 | an unknown id is not-found and invalid input is a 500, both changing nothing; success answers the id, exactly when no link item failed |
| Games.UpdateStages | app/Http/Controllers/GameController.php:216-265 | the link stage touches only links and the game's link pivot |
| Games.UpdateFields | app/Http/Controllers/GameController.php:152-170 | only the edited game row changes, and absent genre or platform lists leave those sets unchanged |
| Games.UpdateLists | app/Http/Controllers/GameController.php:154-170 | a supplied genre or platform list becomes exactly the game's set |
| Games.UpdateImagesOutcome | app/Http/Controllers/GameController.php:172-214 | the images and stored files after `update` are the image outcome of the request |
| Games.UpdateLinksOutcome | app/Http/Controllers/GameController.php:216-265 | without links nothing changes; otherwise the links are the fold's; on success the game's links are exactly the resolved ids; other games keep theirs |
| Games.StoreSteps | app/Http/Controllers/GameController.php:42-130 | the statements of `store` compute its outcome |
| Games.Store | app/Http/Controllers/GameController.php:42-130 | the handler commits the `store` outcome to the database and the disk and keeps the database valid |
| Games.UpdateSteps | app/Http/Controllers/GameController.php:132-276 | the statements of `update` compute its outcome |
| Games.Update | app/Http/Controllers/GameController.php:132-276 | the handler commits the `update` outcome to the database and the disk and keeps the database valid |
| Games.WithoutGame | database/migrations/2025_11_18_120710_create_game_info_table.php:16-38 | deleting a game removes its row and all its genre, platform and link pivot rows, and leaves every other game's rows as they were |
| Games.DestroyValid | database/migrations/2025_11_18_120710_create_game_info_table.php:16-38 | the cascade keeps the catalogue constraints |
| Games.Destroy | app/Http/Controllers/GameController.php:278-283 | an unknown id is not-found and changes nothing; otherwise the game is deleted with its pivot rows |
| GameInfo.LabelsBelow | app/Http/Controllers/GameInfoController.php:17-21 | the labels are distinct, never null or empty, each some link's label, and cover every such label |
| GameInfo.GameDatasLabels | app/Http/Controllers/GameInfoController.php:13-28 | `link_labels` lists each non-null, non-empty label exactly once |

## Left out

- Password hashing (`Hash::make`, `Hash::check`, `bcrypt`) is an opaque function or predicate parameter (`make`, `check`). `setPasswordAttribute` hashes again on top of `Hash::make`. The model stores `make(make(p))` there, so no lemma says a created user can log in.
- The clock (`now()`), token generation (`ApiToken::generateToken`, not part of this model), and the URL, email, MIME and size rules are parameters. A generated token value that clashes or is too long is answered as a 500.
- `json_decode` of `links` is a parameter that gives the parsed items.
- The TrimStrings and ConvertEmptyStringsToNull middleware are not modelled. Inputs reach the handlers as given.
- Vacancies.Store, Vacancies.Update: the vacancies migration is not part of this model, so the status column's type and default are unknown. A blank status is stored as the text sent (a MySQL enum column might refuse or convert it), and a `store` without a status stores None, standing for the unseen column default; ActiveVacancies therefore never lists such a row.
- MySQL collation is not modelled. Names, URLs and logins compare exactly, not case-insensitively.
- Concurrency is not modelled, and neither is the non-atomic store-then-record of files.
- Each request runs alone.
- The HTTP envelope, JSON shapes, status codes beyond the error kind, and the echoed exception text of the catch-all handlers are not modelled.
- `GameController.index`, `show` and `formatGame`, the other index and show read paths, `UserController.me` and `routes/api.php` are read paths or plumbing, and are not modelled.
- Game images are kept when a game is deleted. The game_images migration is not part of this model, so no cascade is assumed.
- Column widths other than the 64-character token are not modelled, and neither are timestamps.
- Genres, platforms, links and vacancy items are never deleted by any handler. Their cascades therefore need no operation.
- `link_labels` is listed in the order of the first link carrying each label. The query has no `orderBy`, so the database's order is not modelled.
- Stored files are paths only. Their bytes, `size`, and the download response are not modelled.
