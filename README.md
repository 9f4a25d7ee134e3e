# TaskPro board backend: card moves, bearer gate and account handlers in Dafny

This project models three parts of a Kanban board's REST backend, written in JavaScript
on Express and Mongoose, and proves what they do:

- **Card handlers** (`controllers/card.js`). The document store is a class `Board` holding
  two maps: card id to `Card{owner, fields}` and column id to `Column{title, owner, cards}`.
  `getById`, `addNew`, `removeById` and `updateById` are store operations on the card map.
  `setNewCardOwner` moves a card within one column or to another column. A ghost log
  `writes` records every document write in order. That log is how the model states which
  paths write nothing, and that the cross-column path writes the source column before it
  looks up the destination. JavaScript's `splice` and `filter` are modelled on sequences
  in `JsArray`, including `splice`'s treatment of negative and past-the-end indices. The
  same-column reorder is the function `CardMove.Reordered`.
- **Bearer gate** (`middlewares/authenticate.js`). `Authenticate.Authenticate` is a pure
  decision from the `Authorization` header, an abstract `verify` and the user map to
  `Authorized(user)` or a 401 reason. `JsString.Split` models `split(" ")`, and its proved
  inverse `Join` lets the lemmas state the accepted header shape character by character.
- **Account handlers** (`controllers/auth.js`). `register`, `confirmEmail`, `login`,
  `refresh` and `logout` are methods of a class `UserTable` over `map<UserId, User>`.
  bcrypt and JWT are function parameters, and the signed tokens arrive as arguments.

Two places where the code does less than its own comments and structure suggest:

- The same-column branch (`controllers/card.js:61-68`) builds the reordered list and
  assigns it to the loaded column. The comment at line 67 says this updates the column.
  The code never saves it, although the cross-column branch saves the source column
  at line 77 (see Findings).
- No handler keeps a column's `cards` free of duplicates or limited to cards the column
  owns. `addNew` adds the new card to no column. `removeById` leaves the id listed.
  `updateById` can change `owner` without touching any list. The model states this
  ownership invariant as `Board.ListedCardsOwned`: every listed id names a card whose
  owner is the listing column. For each handler it proves the exact condition under
  which a consistent board stays consistent:
  - `getById` and `addNew`: always;
  - `removeById`: exactly when no column lists the id;
  - `updateById`: exactly when the owner is unchanged or no column lists the card;
  - `setNewCardOwner`: always on a 404 or a same-column move. A completed cross-column
    move keeps it exactly when no column other than the source and destination lists
    the card, which holds whenever the card's owner is the source column.

## Model

| member | source | states |
|---|---|---|
| `JsArray.RelativeStart` | controllers/card.js:64-65 | `splice`'s start normalisation: a start in `0..len` is kept, one past the end is clamped to `len`, a negative one counts from the end and clamps to 0; the result is never past the end |
| `JsArray.SpliceRemove` | controllers/card.js:64 | `splice(start, 1)` removes one element when the start names one and none otherwise; nothing is lost |
| `JsArray.SpliceRemoveThenInsert` | controllers/card.js:64 | removal at an in-range start takes out exactly `s[p]` and re-inserting it there rebuilds `s`; out of range nothing is removed (`movedCard` is `undefined`) |
| `JsArray.RemoveAtContents` | controllers/card.js:64 | removing index `k` removes exactly one occurrence of `s[k]` from the multiset |
| `JsArray.SpliceInsert` | controllers/card.js:87 | `splice(start, 0, x)` lengthens the list by one and puts `x` at the normalised start |
| `JsArray.SpliceInsertPlaces` | controllers/card.js:65 | `splice(start, 0, x)` puts `x` at the normalised start, with the old prefix before it and the old suffix after it |
| `JsArray.SpliceInsertPosition` | controllers/card.js:87 | an index at or past the length appends; an in-range non-negative index is where `x` lands |
| `JsArray.SpliceInsertContents` | controllers/card.js:87 | insertion adds exactly one `x` to the multiset; members are the old ones plus `x` |
| `JsArray.SpliceInsertMembers` | controllers/card.js:87 | after insertion the members are exactly the old members and `x` |
| `JsArray.SpliceInsertThenRemove` | controllers/card.js:87 | removing the inserted element gives back the original list (the inverse of insertion) |
| `JsArray.Without` | controllers/card.js:72-74 | after the filter the card id occurs nowhere in the list, and the list is no longer |
| `JsArray.WithoutCounts` | controllers/card.js:72-74 | every other id keeps its number of occurrences; the filtered id has none |
| `JsArray.WithoutMembers` | controllers/card.js:72-74 | the members after the filter are exactly the old members other than the filtered id |
| `JsArray.WithoutKeepsOrder` | controllers/card.js:72-74 | the ids that remain keep their relative order (the result is a subsequence of the input) |
| `JsArray.WithoutAbsent` | controllers/card.js:72-74 | filtering an id the list does not hold leaves the list as it was |
| `JsArray.WithoutIdempotent` | controllers/card.js:72-74 | filtering a second time changes nothing |
| `CardMove.Reordered` | controllers/card.js:63-65 | the same-column reorder keeps the length of the list |
| `CardMove.ReorderedIsPermutation` | controllers/card.js:63-65 | the same-column reorder is a permutation: the same multiset of ids and the same members |
| `CardMove.ReorderedPlacesMoved` | controllers/card.js:63-65 | the element from `sourceIndex` ends at `min(destinationIndex, n-1)` for a non-negative destination; the others keep their relative order |
| `CardMove.ReorderedUndo` | controllers/card.js:63-65 | moving the element back from its landing position to its source index restores the list |
| `CardMove.ReorderExample` | controllers/card.js:63-65 | moving index 0 to index 2 of `[A, B, C]` yields `[B, C, A]` |
| `CardMove.ReorderNotIdempotent` | controllers/card.js:63-65 | repeating the same move acts on the reordered list (`[C, A, B]`), so the move is not idempotent |
| `CardStore.CardList` | controllers/card.js:63 | the empty-list default of `sourceColumn.cards`: a column without a list reads as the empty list, otherwise as its list (also lines 72 and 86) |
| `CardStore.WithCards` | controllers/card.js:68 | assigning `cards` replaces the list and keeps the column's title and owner |
| `CardStore.Message` | controllers/card.js:49-82 | the three 404s of a move carry the distinct messages "Card not found", "Source column not found" and "Destination column not found" |
| `CardStore.Patched` | controllers/card.js:31-33 | an update overwrites exactly the fields the body carries, `owner` included, and keeps the rest |
| `CardStore.Board.GetById` | controllers/card.js:6-11 | the card when it exists, 404 otherwise |
| `CardStore.Board.AddNew` | controllers/card.js:13-20 | the new card's owner is the path column whatever the body says; no column's list changes; ownership consistency is kept |
| `CardStore.Board.RemoveById` | controllers/card.js:22-27 | the card is removed, or 404 with nothing written; columns are untouched, so a consistent board stays consistent exactly when no column lists the id |
| `CardStore.Board.UpdateById` | controllers/card.js:29-36 | the body is applied to the card, or 404 with nothing written; columns are untouched; a consistent board stays consistent exactly when the card is missing, the owner does not change, or no column lists the card |
| `CardStore.Board.SetNewCardOwner` | controllers/card.js:38-101 | as written: a missing card or source column gives its 404 with nothing written; a same-column move writes only the unchanged card, whatever `cardId` is, and keeps the old order; a cross-column move filters the id out of the source and saves it, then either gives the destination 404 with the owner unchanged, or inserts the id at `destinationIndex`, saves the destination and saves the card with the new owner; from a consistent board the result is consistent exactly when the move is not a completed cross-column move or no third column lists the card, and always when the card's owner is the source column |
| `CardStore.Board.MoveAcrossColumns` | controllers/card.js:69-92 | the cross-column path: the source is saved without the card id, then a destination 404 leaves the card as it was, or the id is spliced into the destination, the destination saved and the card saved with the destination as owner, in that order; consistency as for `SetNewCardOwner` |
| `CardStore.Board.SetNewCardOwnerSaved` | controllers/card.js:61-68 | corrected: the same-column move saves the column with the list reordered by `sourceIndex` alone (`cardId` plays no part) before saving the unchanged card; other paths as written; consistency is kept on the same-column path and otherwise as for `SetNewCardOwner` |
| `CardStore.CrossMoveKeepsOwnership` | controllers/card.js:69-92 | on a consistent board, the board after a cross-column move is consistent exactly when no column other than the source and destination lists the card; a card owned by the source column satisfies this |
| `CardStore.FilterKeepsOwnership` | controllers/card.js:72-77 | filtering a card id out of one column's list keeps a consistent board consistent |
| `CardStore.ReorderKeepsOwnership` | controllers/card.js:61-68 | reordering one column's list, once saved, keeps a consistent board consistent |
| `JsString.Split` | middlewares/authenticate.js:11 | `split(" ")` yields at least one piece and no piece contains a space |
| `JsString.JoinSplit` | middlewares/authenticate.js:11 | joining the pieces with single spaces gives back the header |
| `JsString.SplitJoin` | middlewares/authenticate.js:11 | space-free pieces survive a join and a split (the other round trip) |
| `JsString.SplitFront` | middlewares/authenticate.js:11 | one piece exactly when there is no space, and then it is the whole string; otherwise the string starts with the first piece, a space and the second piece, followed by nothing or a space |
| `JsString.SplitTwoWords` | middlewares/authenticate.js:11 | two space-free words joined by a space split into exactly those two words |
| `JsString.SplitTwoWordsThen` | middlewares/authenticate.js:11 | two space-free words, a space and any tail split into the two words followed by the tail's pieces |
| `JsString.SplitAtSpace` | middlewares/authenticate.js:11 | splitting `a + " " + b` splits `a` and `b` independently |
| `JsString.SplitNoSpace` | middlewares/authenticate.js:11 | a string without a space is a single piece |
| `Authenticate.Scheme` | middlewares/authenticate.js:11 | `bearer`, the first piece: space-free, a prefix of the header, and followed by a space when it is not the whole header |
| `Authenticate.TokenOf` | middlewares/authenticate.js:11 | `token`, the second piece: space-free; empty when the header has no space; otherwise the header starts with the scheme, a space and the token, followed by nothing or a space |
| `Authenticate.Admits` | middlewares/authenticate.js:23-25 | the guard passes exactly when the verified id names a stored user whose access token is present and not empty |
| `Authenticate.Message` | middlewares/authenticate.js:14-33 | the two 401 reasons carry the distinct messages "Not authorized" and "Token missing" |
| `Authenticate.Authenticate` | middlewares/authenticate.js:9-35 | a first piece other than "Bearer" gives "Not authorized"; "Bearer" with an empty second piece gives "Token missing"; success holds exactly when the token verifies to an existing user with a non-empty access token, and that user is attached |
| `Authenticate.MissingHeaderDenied` | middlewares/authenticate.js:10-15 | a missing header is read as `""` and refused with "Not authorized" |
| `Authenticate.LowerCaseSchemeDenied` | middlewares/authenticate.js:13-15 | the scheme match is case-sensitive: `"bearer <token>"` is refused whatever the token |
| `Authenticate.BareSchemeTokenMissing` | middlewares/authenticate.js:17-19 | `"Bearer"` and `"Bearer "` give "Token missing" |
| `Authenticate.BearerPieces` | middlewares/authenticate.js:11 | `"Bearer " + token` splits into `["Bearer", token]`, and with a space and a tail after it, into those two followed by the tail's pieces |
| `Authenticate.BearerToken` | middlewares/authenticate.js:11 | in `"Bearer " + token`, possibly followed by a space and more text, the presented token is exactly `token` |
| `Authenticate.ExtraPiecesIgnored` | middlewares/authenticate.js:11-22 | pieces after the token do not change the outcome |
| `Authenticate.AuthorizedShape` | middlewares/authenticate.js:13-30 | success implies the header is `"Bearer " + token` followed by nothing or a space, the token is non-empty and space-free, it verifies to a user holding an access token, and that user is attached |
| `Authenticate.ClearedTokenDenied` | middlewares/authenticate.js:25-27 | a user whose access token was cleared, as logout does, is refused even with a token that still verifies |
| `Users.NewUser` | controllers/auth.js:58-63 | the new user has the given name, email and password hash, is unconfirmed, and takes the schema defaults (theme `violet`, no avatar, no tokens; models/user.js:24-39) |
| `Auth.EmailTaken` | controllers/auth.js:46-47 | `findOne({ email })` finds a document exactly when some stored user has that email (also line 114) |
| `Auth.RefreshTokenHeld` | controllers/auth.js:156-157 | `findOne({ refreshToken })` finds a document exactly when some stored user holds exactly that refresh token |
| `Auth.WithTokens` | controllers/auth.js:138 | `findByIdAndUpdate` with both tokens sets exactly the two token fields and keeps every other field (also line 169) |
| `Auth.UserTable.Register` | controllers/auth.js:42-81 | 409 exactly when the email is in use, and then no user is added; otherwise one new user, unconfirmed, storing `hash(password)`; unique emails stay unique |
| `Auth.UserTable.ConfirmEmail` | controllers/auth.js:83-111 | fails for a rejected token, a token naming another user, or a missing user, and then writes nothing; otherwise the user ends confirmed, and an already confirmed user is neither changed nor saved (idempotent) |
| `Auth.UserTable.Login` | controllers/auth.js:112-150 | the same 401 for an unknown email and for a wrong password, with nothing written; on success both new tokens are stored on the matching user and nothing else changes; with unique emails success holds exactly when the password matches |
| `Auth.UserTable.Refresh` | controllers/auth.js:152-177 | 403 unless the token verifies and some user stores exactly it, with nothing written; on success both tokens of the user named in the payload are replaced |
| `Auth.UserTable.Logout` | controllers/auth.js:193-197 | both tokens of the user become `""` and no other field changes |

## Findings

| source | as written | input that shows it | evidently intended | confidence | as-written member | corrected member |
|---|---|---|---|---|---|---|
| controllers/card.js:61-68 | the same-column branch assigns `sourceColumn.cards` on the loaded document but never calls `sourceColumn.save()`; only `card.save()` runs at line 94, so the reorder is lost | a column listing `[A, B, C]`, a move within it from `sourceIndex` 0 to `destinationIndex` 2: the reply is 200 and the store still lists `[A, B, C]` instead of `[B, C, A]` (`CardMove.ReorderExample`) | save the source column with the reordered list, as the cross-column branch does at line 77 | high; not executed | `CardStore.Board.SetNewCardOwner` | `CardStore.Board.SetNewCardOwnerSaved` |

## Left out

- CardStore.Board.SetNewCardOwnerSaved: requires an in-range `sourceIndex` on the same-column path. Out of range, `splice` yields `undefined`, and the code would insert that value into the list. A list of card ids cannot hold it. The as-written method needs no such requirement because it saves nothing on that path.
- CardMove.Reordered: requires `sourceIndex` to name an element of the list. Out of range, `splice` yields `undefined` and the code inserts it, which a list of card ids cannot hold. `SetNewCardOwner` skips the reorder in that case; the copy is never saved, so nothing observable changes.
- Auth.UserTable.Register: answers `Registered` once the user is stored. In the code, a failure of `sendConfirmationEmail` (controllers/auth.js:70) lands in the catch at lines 77-80 and answers 500, although the user was already saved at line 67. Email delivery is not modelled.
- Ids are compared as the canonical lower-case hexadecimal strings Mongoose produces. `findById` also accepts an upper-case spelling of an ObjectId, but the comparisons at controllers/card.js:61 (`===`) and line 73 (`toString() !==`) compare strings. With mixed spellings, a move within one column takes the cross-column path, and the filter keeps an id it should remove. The model's ids are plain strings compared by equality.
- The destination 404 at controllers/card.js:82 is the only error raised with `new HttpError(...)`. helpers/HttpError.js is not part of this model, and the model assumes `HttpError` can be called with `new`. If it could not, that line would throw a TypeError and the reply would be a 500, after the source column was already saved.
- `sourceIndex` and `destinationIndex` are `int`s: the values after `splice`'s ToIntegerOrInfinity conversion. A fraction is truncated toward zero, and a missing value or `null` reads as 0. These conversions of the request body are not modelled.
- Logging is left out: the `console.error` calls at controllers/card.js:57 and 98, middlewares/authenticate.js:32, and controllers/auth.js:78 and 108 change no state.
- Auth.UserTable.Login: when several users share an email, the model picks any of them; Mongoose's `findOne` returns the first in storage order. The unique index on `email` rules this out in practice, and the model proves that every handler keeps emails unique.
- Auth.UserTable.Refresh: the `jwt.verify` error message of a 403 is abstract (`RefreshRejected`).
- Store ids are taken as given: ObjectId generation becomes the `newId` argument that `AddNew` and `Register` require to be fresh. ObjectId casting errors become unmodelled 500 replies.
- The model is sequential. Concurrent requests and lost updates between simultaneous moves are not modelled.
- The persistence layer is plain map updates. Mongoose validation failures on `save()` (the email pattern, the password `minlength`, the theme enum) are not modelled. Neither is any other store failure that ends in a 500.
- bcrypt and JWT are foreign libraries. `hash`, `passwordMatches` and the `verify...` functions are parameters. Token signing, secrets and expiry times (`"1h"`, `"10m"`, `"7d"`) are not modelled.
- Email is I/O. `sendConfirmationEmail`, `sendEmail` and `getHelpEmail` are left out. So is `generateToken`, which only signs a JWT.
- `updateTheme`, `updateProfile` and `getCurrent` are request-body merges, file-upload paths and response shaping. They state no rule beyond "fields from the body overwrite".
- The Express plumbing is not modelled: `controllerWrapper`, response bodies beyond the statuses and messages named above, and `req.user`. The gate returns the attached user instead of writing `req.user`.
- The card schema and its field names are not part of this model. A card's fields are an opaque string map, and `updateById` applies a body as a map overwrite.
- The headers' `split(" ")` is modelled on characters. The gate always receives a string or no header, so JavaScript's type coercions of non-string values are not modelled.
