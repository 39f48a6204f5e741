# ShareIt core in Dafny

ShareIt is an item-rental backend. Users list items, other users book them for a time
window, and the item's owner approves or rejects each booking. Users who have rented
something may comment on it. This project models the decision logic of the services
under the controllers, and proves what that logic promises:

- the booking lifecycle: `create`, `update` (approve/reject), `getById`, and the two
  listings by state;
- the item services: create, partial update, comment, get with the last/next booking,
  the owner's listing, text search, delete;
- the user services: partial update with the duplicate-email check, get, delete;
- the two in-memory repositories of the first version: a hash map plus an id counter;
- page computation, and the gateway's start-before-end validator.

Several historical versions of a service live side by side in the repository. Where
they differ, the model has a variant parameter. `BookingService.Variant` tells the
three booking services apart, and `ItemService.ItemVariant` the two database-era item
services.

Time is an integer and `now` is a parameter. Each call reads one `now`, whereas the
source reads the clock again at every use. Entities are values: a booking holds a copy
of its item and booker, not a reference to them. The relational store is
`Store.Database`. Each table is a sequence of rows in id order, users are a map from id
to user, and an identity counter per table hands out the ids. A derived Spring Data
query becomes a filter plus a sort over the table: `Before` is `<`, `After` is `>`, and
`OrderByStartDesc` sorts by start, latest first.

Files:

- `common.dfy`: options, results and errors, plus the string helpers (`isBlank` with
  Java's whitespace set, ASCII lower-casing, `contains`).
- `domain.dfy`: the entities. Also the item patch and the item-update decision, which
  all three item services share.
- `store.dfy`: the database class and the `findById` lookups.
- `booking_queries.dfy`: the listing states, the derived queries, and sorting.
- `booking_service.dfy`: the booking service.
- `item_projection.dfy`: last and next booking.
- `item_service.dfy`: the database-era item services.
- `item_repository.dfy` and `user_repository.dfy`: the in-memory repositories, as classes.
- `legacy_item_service.dfy`: the in-memory-era item service, as a class over the item
  repository.
- `user_service.dfy`: the user services.
- `pagination.dfy` and `date_validator.dfy`: the two helpers.

Three behaviours of the code worth noting:

- CURRENT is strict on both sides (`start < now && end > now`), not inclusive. A
  booking starting exactly now is in neither CURRENT nor FUTURE, and one ending exactly
  now is in neither CURRENT nor PAST (`BookingQueries.BoundariesAreStrict`).
- The last booking is the one with the latest *end* among those started before now,
  not the one with the latest start.
- `update` refuses only APPROVED and REJECTED bookings. Nothing creates CANCELED, but a
  CANCELED booking would still be decided.

## Model

| member | source | states |
|---|---|---|
| Common.BlankSeparators | src/main/java/ru/practicum/shareit/item/ItemServiceImpl.java:173 | `isBlank` uses Java's whitespace set: the separators U+001C to U+001F and the ideographic space are blank, the no-break space U+00A0 is not |
| Pagination.SplitByPages | src/main/java/ru/practicum/shareit/common/pagination/Pagination.java:10-16 | no paging exactly when `from` or `size` is absent; otherwise the page has `size` elements and its first index `page*size` satisfies `page*size <= from < page*size + size` |
| Pagination.PageStartsAtFromIffAligned | src/main/java/ru/practicum/shareit/common/pagination/Pagination.java:15 | the page starts exactly at `from` iff `from % size == 0`; otherwise it starts at `from - from % size` |
| Pagination.PageContainsFrom | src/main/java/ru/practicum/shareit/common/pagination/Pagination.java:15 | every element of the returned page is an element of the full result, and element `from` is on the page |
| Pagination.ApplyPage | src/main/java/ru/practicum/shareit/common/pagination/Pagination.java:15 | without a page the whole result is returned; with one, the block of the result starting at `page*size`: `size` elements, fewer on the last page, none past the end, each the element at its offset |
| DateValidator.IsValid | gateway/src/main/java/ru/practicum/shareit/booking/CheckDateValidator.java:15-24 | a missing start or end is invalid; with both present, valid iff start is strictly before end |
| DateValidator.GatewayAgreesWithServer | gateway/src/main/java/ru/practicum/shareit/booking/CheckDateValidator.java:23 | the gateway accepts exactly the dates the server's order check accepts; equal dates are refused |
| BookingQueries.ParseStateIffName | src/main/java/ru/practicum/shareit/booking/service/BookingServiceImpl.java:121-136 | a state string is recognised exactly when it is one of the six names, and it then denotes that state (names and parsing are inverse) |
| BookingQueries.UnknownNameUnrecognised | src/main/java/ru/practicum/shareit/booking/service/BookingServiceImpl.java:137-138 | a string that names no state falls to the `default` branch |
| BookingQueries.BoundariesAreStrict | server/src/main/java/ru/practicum/shareit/booking/BookingServiceImpl.java:120-128 | a booking starting exactly now is neither CURRENT nor FUTURE; one ending exactly now is neither CURRENT nor PAST |
| BookingQueries.TemporalStatesPartition | server/src/main/java/ru/practicum/shareit/booking/BookingServiceImpl.java:120-128 | off the boundaries, a booking with start before end is in exactly one of CURRENT, PAST and FUTURE |
| BookingQueries.FindAll | server/src/main/java/ru/practicum/shareit/booking/BookingServiceImpl.java:119-137 | a derived listing query returns exactly the bookings in scope and in the state, with their multiplicities, latest start first |
| BookingQueries.Sort | server/src/main/java/ru/practicum/shareit/booking/BookingServiceImpl.java:121-122 | `OrderByStart...` returns a sorted permutation of its input |
| BookingService.CreateDecision | server/src/main/java/ru/practicum/shareit/booking/BookingServiceImpl.java:34-64 | the checks run in order (booker exists, item exists, item available, booker is not the owner, dates valid), each with its error (NotFound, NotFound, BookingError, SelfBooking, BookingError for refused dates); success is exactly when all pass, and yields a WAITING booking of the requested window with that booker and item, whose start is before its end |
| BookingService.UnavailableOwnItemReportsUnavailable | server/src/main/java/ru/practicum/shareit/booking/BookingServiceImpl.java:38-47 | booking your own unavailable item reports unavailability (BookingError), not self-booking |
| BookingService.OnlyLegacyRefusesPastDates | src/main/java/ru/practicum/shareit/booking/service/BookingService.java:52-60 | a window wholly in the past is accepted by the server and service versions and refused by the legacy version |
| BookingService.Create | src/main/java/ru/practicum/shareit/booking/service/BookingServiceImpl.java:36-66 | `create` returns the decision above; on success the booking is appended under the next id; on failure no table changes |
| BookingService.UpdateDecision | server/src/main/java/ru/practicum/shareit/booking/BookingServiceImpl.java:68-94 | a missing booking and a non-owner both get NotFound; a decided booking gets BookingError; otherwise only the status changes, to APPROVED or REJECTED as asked |
| BookingService.DecisionIsTerminal | src/main/java/ru/practicum/shareit/booking/service/BookingServiceImpl.java:84-95 | deciding an already decided booking fails with BookingError whatever either `approved` is |
| BookingService.Update | src/main/java/ru/practicum/shareit/booking/service/BookingService.java:69-92 | `update` returns the decision and writes the decided booking back in its row; nothing else changes |
| BookingService.SecondUpdateFails | src/main/java/ru/practicum/shareit/booking/service/BookingServiceImpl.java:70-96 | on the table the first `update` leaves behind, a second `update` of the same booking fails with BookingError |
| BookingService.GetById | server/src/main/java/ru/practicum/shareit/booking/BookingServiceImpl.java:97-113 | the booking is returned iff it exists and the caller is its booker or its item's owner; otherwise NotFound |
| BookingService.ServerListing | server/src/main/java/ru/practicum/shareit/booking/BookingServiceImpl.java:116-163 | NotFound iff the user is missing; otherwise the result is sorted by start descending, holds only bookings in scope and in the state, without paging is exactly the query's result; with paging holds exactly the requested page of that result, element by element |
| BookingService.NamedListing | src/main/java/ru/practicum/shareit/booking/service/BookingServiceImpl.java:118-166 | a missing user is NotFound even for an unknown state; an unknown state is UnsupportedState; otherwise exactly the bookings in scope and in the state, sorted by start descending |
| BookingService.NamedListingAgreesWithServer | src/main/java/ru/practicum/shareit/booking/service/BookingService.java:110-158 | for a recognised state, the string listings return exactly what the unpaged server listing returns |
| BookingService.OnlyNamedListingRejectsStates | src/main/java/ru/practicum/shareit/booking/service/BookingService.java:129-130 | for an existing user the server listing always succeeds, while the string listings answer UnsupportedState for every unknown name |
| BookingService.PageOfSorted | server/src/main/java/ru/practicum/shareit/booking/BookingServiceImpl.java:116-137 | a page of a sorted listing is sorted |
| Store.IndexOf | server/src/main/java/ru/practicum/shareit/booking/BookingServiceImpl.java:69-73 | `findById` finds the first row with the id, and finds none exactly when no row has it |
| Store.FindById | server/src/main/java/ru/practicum/shareit/booking/BookingServiceImpl.java:97-102 | the row found is a row of the table with that id; none exactly when no row has the id |
| Store.FindAfterWriteBack | server/src/main/java/ru/practicum/shareit/booking/BookingServiceImpl.java:68-93 | after a row is written back where `findById` found it, with its id kept, `findById` returns the new row |
| ItemProjection.NextIndex | src/main/java/ru/practicum/shareit/item/ItemServiceImpl.java:137-142 | none exactly when no booking starts after now; otherwise the pick starts after now, no such booking starts earlier, and every earlier-listed candidate starts strictly later (ties go to the first) |
| ItemProjection.LastIndex | src/main/java/ru/practicum/shareit/item/ItemServiceImpl.java:144-149 | none exactly when no booking started before now; otherwise the pick started before now, no such booking ends later, and every earlier-listed candidate ends strictly earlier (ties go to the first) |
| ItemProjection.NextBooking | src/main/java/ru/practicum/shareit/item/service/ItemServiceImpl.java:124-129 | the next booking is a booking of the list starting after now, with the minimal start among those; null when there is none |
| ItemProjection.LastBooking | src/main/java/ru/practicum/shareit/item/service/ItemServiceImpl.java:131-136 | the last booking is a booking of the list started before now, with the maximal end among those; null when there is none |
| ItemProjection.StartingNowIsNeither | src/main/java/ru/practicum/shareit/item/ItemServiceImpl.java:137-149 | a booking starting exactly now is neither the last nor the next booking |
| ItemProjection.NextOfAscendingIsFirstFuture | src/main/java/ru/practicum/shareit/item/ItemServiceImpl.java:123-127 | on the ascending list the service passes in, the next booking is the first one that starts after now |
| ItemProjection.PicksAreUnique | src/main/java/ru/practicum/shareit/item/ItemServiceImpl.java:137-149 | the position of the last booking and of the next booking is determined by their specifications alone |
| ItemProjection.ApprovedBookingsOf | src/main/java/ru/practicum/shareit/item/ItemServiceImpl.java:123-124 | exactly the item's APPROVED bookings, sorted by start ascending |
| Domain.PatchItem | src/main/java/ru/practicum/shareit/item/ItemServiceImpl.java:75-85 | each of name, description and available takes the patch's value when present and keeps its old value otherwise; id, owner and request are kept |
| Domain.PatchItemLaws | src/main/java/ru/practicum/shareit/item/service/ItemServiceImpl.java:68-78 | an empty patch changes nothing, and applying a patch twice is applying it once |
| Domain.UpdateItemDecision | src/main/java/ru/practicum/shareit/item/ItemServiceImpl.java:62-88 | the update succeeds iff both the user and the item exist and the user equals the owner; every refusal is NotFound; success yields the patched item |
| Domain.ItemOwnerCheckComparesWholeUser | src/main/java/ru/practicum/shareit/item/ItemServiceImpl.java:69-73 | a caller with the owner's id but a different name or email is refused |
| Domain.UpdateItemKeepsIdentity | src/main/java/ru/practicum/shareit/item/service/ItemServiceImpl.java:58-81 | an accepted update keeps id, owner and request; an update with no fields returns the stored item |
| ItemService.CreateDecision | src/main/java/ru/practicum/shareit/item/ItemServiceImpl.java:45-58 | NotFound when the owner is missing, or when a given request id does not exist (request version only); otherwise an item with the given fields, owned by the user, under the new id, holding the request (none in the older version) |
| ItemService.Create | src/main/java/ru/practicum/shareit/item/service/ItemServiceImpl.java:48-54 | `create` returns the decision; on success the item is appended under the next id, and on failure nothing changes |
| ItemService.Update | src/main/java/ru/practicum/shareit/item/service/ItemServiceImpl.java:58-81 | `update` returns the shared decision, and the patched item replaces its row; nothing else changes |
| ItemService.WriteBackKeepsOrder | src/main/java/ru/practicum/shareit/item/service/ItemServiceImpl.java:80 | writing a row back with its id kept keeps the items table in id order |
| ItemService.CommentGateAsWritten | src/main/java/ru/practicum/shareit/item/ItemServiceImpl.java:99-105 | the gate is open iff the user has some booking that ended before now, of any item and in any status |
| ItemService.CommentGate | src/main/java/ru/practicum/shareit/item/ItemServiceImpl.java:102-104 | the corrected gate of the Findings row (both versions' queries are booker-wide): open iff the user has a booking of this item that ended before now, as the refusal message "did not book this item" intends |
| ItemService.CommentGateImpliesWritten | src/main/java/ru/practicum/shareit/item/ItemServiceImpl.java:99-105 | the corrected gate is never more permissive than the written one |
| ItemService.CommentGateAsWrittenAdmitsStranger | src/main/java/ru/practicum/shareit/item/ItemServiceImpl.java:99-105 | a user whose only finished booking is of another item passes the written gate and fails the corrected one |
| ItemService.CommentDecision | src/main/java/ru/practicum/shareit/item/ItemServiceImpl.java:92-113 | NotFound for a missing user or item; BookingError when the gate is closed; otherwise a comment by the user on the item, created now |
| ItemService.AddComment | src/main/java/ru/practicum/shareit/item/service/ItemServiceImpl.java:85-103 | `comment` returns that decision for the corrected gate; on success the comment is appended under the next id, and on failure nothing changes |
| ItemService.WithBookingsMeaning | src/main/java/ru/practicum/shareit/item/ItemServiceImpl.java:122-132 | last = an APPROVED booking of the item started before now with the latest end; next = one starting after now with the earliest start; each is absent iff there is no candidate; comments = exactly the item's |
| ItemService.GetItem | src/main/java/ru/practicum/shareit/item/ItemServiceImpl.java:116-135 | NotFound iff the item is missing; the owner gets the item with last, next and comments; anyone else gets no last and no next, but the same comments |
| ItemService.ItemsOwnedBy | src/main/java/ru/practicum/shareit/item/ItemServiceImpl.java:153 | exactly the user's items, kept in id order |
| ItemService.GetByUserIdRows | src/main/java/ru/practicum/shareit/item/ItemServiceImpl.java:152-169 | every row is an item of the user, with its last and next bookings and its comments attached |
| ItemService.GetByUserIdOrder | src/main/java/ru/practicum/shareit/item/ItemServiceImpl.java:153 | the rows come in increasing id order |
| ItemService.GetByUserIdCoverage | src/main/java/ru/practicum/shareit/item/service/ItemServiceImpl.java:139-155 | without paging, every item of the user appears |
| ItemService.GetByUserId | src/main/java/ru/practicum/shareit/item/ItemServiceImpl.java:152-169 | at most `size` rows with a page, and no more rows than the items table has without one |
| ItemService.GetByUserIdPage | src/main/java/ru/practicum/shareit/item/ItemServiceImpl.java:152-169 | with a page, exactly the requested page of the owner's items in id order, each with its bookings and comments attached |
| ItemService.SearchByText | src/main/java/ru/practicum/shareit/item/ItemServiceImpl.java:172-178 | blank text (Java's whitespace set) gives an empty list without querying; otherwise the query's whole answer without a page, and exactly the requested page of it, element by element, with one |
| ItemService.RemoveItem | src/main/java/ru/practicum/shareit/item/ItemServiceImpl.java:187 | `deleteById` leaves exactly the rows with other ids, still in id order |
| ItemService.Delete | src/main/java/ru/practicum/shareit/item/ItemServiceImpl.java:182-188 | NotFound iff no item has the id, and then nothing changes; otherwise that row is removed |
| InMemoryItems.SearchIgnoresCase | src/main/java/ru/practicum/shareit/item/repository/InMemoryItemRepositoryImpl.java:67-72 | the search finds the same items for a text and for the text lower-cased |
| InMemoryItems.SearchFindsAvailableByName | src/main/java/ru/practicum/shareit/item/repository/InMemoryItemRepositoryImpl.java:67-72 | an unavailable item is never found; an available one is found by its own name |
| InMemoryItems.InMemoryItemRepository.constructor | src/main/java/ru/practicum/shareit/item/repository/InMemoryItemRepositoryImpl.java:11-12 | the map starts empty and the counter at 0 |
| InMemoryItems.InMemoryItemRepository.Create | src/main/java/ru/practicum/shareit/item/repository/InMemoryItemRepositoryImpl.java:15-20 | the counter is incremented first; the item gets the new value as its id and is stored under it (1, 2, ... from a fresh repository) |
| InMemoryItems.InMemoryItemRepository.Update | src/main/java/ru/practicum/shareit/item/repository/InMemoryItemRepositoryImpl.java:23-26 | the item is stored under its own id; no other key and not the counter change |
| InMemoryItems.InMemoryItemRepository.Get | src/main/java/ru/practicum/shareit/item/repository/InMemoryItemRepositoryImpl.java:29-31 | the stored item, or empty iff the key is absent |
| InMemoryItems.InMemoryItemRepository.GetByUserId | src/main/java/ru/practicum/shareit/item/repository/InMemoryItemRepositoryImpl.java:34-39 | exactly the stored items whose owner id is the argument, no two with the same id, so each entry once |
| InMemoryItems.InMemoryItemRepository.GetBySearchText | src/main/java/ru/practicum/shareit/item/repository/InMemoryItemRepositoryImpl.java:42-51 | empty for blank text; otherwise exactly the stored items that are available and whose lower-cased name or description contains the lower-cased text, each entry once |
| InMemoryItems.InMemoryItemRepository.Delete | src/main/java/ru/practicum/shareit/item/repository/InMemoryItemRepositoryImpl.java:54-61 | true iff the key was present; the key is gone afterwards; with false the map is unchanged |
| InMemoryItems.InMemoryItemRepository.ResetData | src/main/java/ru/practicum/shareit/item/repository/InMemoryItemRepositoryImpl.java:74-77 | the map is empty and the counter is 1, so the next id is 2 |
| InMemoryUsers.InMemoryUserRepository.constructor | src/main/java/ru/practicum/shareit/user/repository/InMemoryUserRepositoryImpl.java:10-11 | the map starts empty and the counter at 0 |
| InMemoryUsers.InMemoryUserRepository.Create | src/main/java/ru/practicum/shareit/user/repository/InMemoryUserRepositoryImpl.java:14-19 | the user gets the incremented counter as id and is stored under it |
| InMemoryUsers.InMemoryUserRepository.Update | src/main/java/ru/practicum/shareit/user/repository/InMemoryUserRepositoryImpl.java:22-25 | only the entry at the user's id changes |
| InMemoryUsers.InMemoryUserRepository.Get | src/main/java/ru/practicum/shareit/user/repository/InMemoryUserRepositoryImpl.java:28-30 | the stored user, or empty iff the key is absent |
| InMemoryUsers.InMemoryUserRepository.GetByEmail | src/main/java/ru/practicum/shareit/user/repository/InMemoryUserRepositoryImpl.java:33-38 | a stored user with that email; empty iff no stored user has it |
| InMemoryUsers.InMemoryUserRepository.GetAll | src/main/java/ru/practicum/shareit/user/repository/InMemoryUserRepositoryImpl.java:41-43 | as many users as entries, and exactly the stored users |
| InMemoryUsers.InMemoryUserRepository.Delete | src/main/java/ru/practicum/shareit/user/repository/InMemoryUserRepositoryImpl.java:46-53 | true iff the id was present, and then the map shrinks by one and loses that id; otherwise nothing changes |
| InMemoryUsers.InMemoryUserRepository.ResetData | src/main/java/ru/practicum/shareit/user/repository/InMemoryUserRepositoryImpl.java:59-62 | the map is empty and the counter is 1 |
| LegacyItems.ItemService.Create | src/main/java/ru/practicum/shareit/item/service/ItemService.java:24-30 | NotFound iff the owner is missing, and then the repository is unchanged; otherwise the item is owned by that user and stored under the repository's next id |
| LegacyItems.ItemService.Update | src/main/java/ru/practicum/shareit/item/service/ItemService.java:32-53 | the shared update decision, made on the repository's `get`; on success the patched item replaces the entry, otherwise nothing changes |
| LegacyItems.ItemService.Get | src/main/java/ru/practicum/shareit/item/service/ItemService.java:55-57 | NotFound iff the repository has no item under the id; otherwise the stored item |
| LegacyItems.ItemService.GetByUserId | src/main/java/ru/practicum/shareit/item/service/ItemService.java:59-61 | exactly the stored items of the owner, each entry once |
| LegacyItems.ItemService.GetBySearchText | src/main/java/ru/practicum/shareit/item/service/ItemService.java:63-65 | empty for blank text; otherwise exactly the stored items the search accepts, each entry once |
| LegacyItems.ItemService.Delete | src/main/java/ru/practicum/shareit/item/service/ItemService.java:67-73 | NotFound exactly when the repository's `delete` reports the id absent; the id is gone afterwards |
| UserService.UpdateDecision | server/src/main/java/ru/practicum/shareit/user/UserServiceImpl.java:30-46 | NotFound iff the user is missing; DuplicateEmail iff a present email differs from the current one and is taken; otherwise the email is the given one (or kept), and the name is the given one when present and not blank by `isBlank` (or kept) |
| UserService.BlankNameIsKept | server/src/main/java/ru/practicum/shareit/user/UserServiceImpl.java:41-43 | a name made only of whitespace characters, U+001C to U+001F included, leaves the user unchanged |
| UserService.Update | src/main/java/ru/practicum/shareit/user/service/UserServiceImpl.java:36-49 | `update` returns the decision; on success the user's entry is replaced, and on failure nothing changes |
| UserService.UpdateKeepsEmailsUnique | src/main/java/ru/practicum/shareit/user/service/UserService.java:30-43 | if no two users shared an email before a successful update, none do after it |
| UserService.CurrentEmailIsNoOp | server/src/main/java/ru/practicum/shareit/user/UserServiceImpl.java:36-39 | passing the current email acts like passing none, and never fails with DuplicateEmail |
| UserService.Get | src/main/java/ru/practicum/shareit/user/service/UserService.java:45-47 | NotFound iff the user is missing; otherwise the stored user |
| UserService.Delete | server/src/main/java/ru/practicum/shareit/user/UserServiceImpl.java:62-69 | NotFound iff the user is missing, and then nothing changes; otherwise exactly that id is removed |

## Left out

- Controllers, gateway clients, exception handlers, MapStruct mappers and DTO validation
  annotations are forwarding code or framework plumbing. Errors are kinds
  (`Common.Error`), not HTTP status codes.
- The clock is the parameter `now`. The source reads `LocalDateTime.now()` several times
  within one call; the model uses one value per call.
- Entities are values, not shared references. An item stores a copy of its owner, so a
  later change to that user is not reflected in the copy. Under JPA both sides of the
  owner check resolve to the same row.
- Java `long` ids and counters are unbounded integers; wrap-around after 2^63 ids is not
  modelled.
- `LocalDateTime` is an integer; only its order is used.
- `toLowerCase` is restricted to ASCII letters; other letters are left as they are.
- ItemService.SearchByText: the JPQL text query of the database-era repository is not
  modelled (its `LIKE` matching and its `OR`/`AND` precedence). Its answer is a
  parameter, so only the blank-text short cut and the paging are stated.
- The iteration order of the in-memory hash maps is left open. The repository
  listings promise membership and sizes, not an order.
- ItemService.AddComment uses the corrected, per-item gate (see Findings). The gate as
  written is `ItemService.CommentGateAsWritten`.
- User creation and `getAll` of the services are plain saves and reads of the
  repository and are not modelled. Neither is the database's unique constraint on
  email, nor a failure of `deleteById` on rows other tables still reference.
- The request and comment services only look rows up and save them. A request exists
  in the model only as its id in `Database.requests`.
- No overlap check between bookings: the source has none, and the model adds none.
- Concurrency and transactions: each operation is one atomic step.

## Findings

| source | as written | input that shows it | evidently intended | confidence | as-written member | corrected member |
|---|---|---|---|---|---|---|
| src/main/java/ru/practicum/shareit/item/ItemServiceImpl.java:99-105 | `comment` lets a user comment when they have any booking, of any item, that ended before now (`findAllByBookerIdAndEndBefore...` is not filtered by item); the older version does the same at src/main/java/ru/practicum/shareit/item/service/ItemServiceImpl.java:89-95 | a user whose only booking is a finished booking of item 11 comments on item 10 | the refusal message says the user "did not book this item", so the booking should be of the commented item | not executed | ItemService.CommentGateAsWrittenAdmitsStranger | ItemService.CommentGate |
