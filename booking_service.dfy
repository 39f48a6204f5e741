/** The booking lifecycle: create, approve or reject, look up, and the two
    listings by state. Three historical versions of the service share this
    logic and differ in two places: which dates `create` refuses, and how the
    listings treat the state they are given. */
module BookingService {
  import opened Common
  import opened Domain
  import opened Pagination
  import opened DateValidator
  import opened BookingQueries
  import opened Store

  /** The version of the booking service:
      `Server` is server/.../booking/BookingServiceImpl.java,
      `ServiceImpl` is src/.../booking/service/BookingServiceImpl.java,
      `LegacyService` is src/.../booking/service/BookingService.java. */
  datatype Variant = Server | ServiceImpl | LegacyService

  /** The date check of `create`: an end before the start or equal to it is
      always refused; the legacy service also refuses a start or an end in the past. */
  predicate DatesRejected(v: Variant, start: Time, end: Time, now: Time)
  {
    (v == LegacyService && (start < now || end < now)) || DatesOutOfOrder(start, end)
  }

  /** The outcome of `create` for booker `userId` on the looked-up booker and
      item, where `id` is the id the booking table would assign. The checks run
      in a fixed order: booker exists, item exists, item available, booker is
      not the owner, dates valid. */
  function CreateDecision(v: Variant, booker: Option<User>, item: Option<Item>, userId: int,
                          start: Time, end: Time, now: Time, id: int): (r: Result<Booking>)
    ensures booker.None? ==> r == Err(NotFound)
    ensures booker.Some? && item.None? ==> r == Err(NotFound)
    ensures booker.Some? && item.Some? && !item.value.available ==> r == Err(BookingError)
    ensures booker.Some? && item.Some? && item.value.available && item.value.owner.id == userId ==>
              r == Err(SelfBooking)
    ensures booker.Some? && item.Some? && item.value.available && item.value.owner.id != userId &&
            DatesRejected(v, start, end, now) ==>
              r == Err(BookingError)
    ensures r.Ok? <==> booker.Some? && item.Some? && item.value.available &&
                       item.value.owner.id != userId && !DatesRejected(v, start, end, now)
    ensures r.Ok? ==> r.value == Booking(id, start, end, item.value, booker.value, Status.Waiting)
    ensures r.Ok? ==> r.value.start < r.value.end
    ensures r.Ok? && v == LegacyService ==> now <= r.value.start
  {
    if booker.None? || item.None? then Err(NotFound)
    else if !item.value.available then Err(BookingError)
    else if item.value.owner.id == userId then Err(SelfBooking)
    else if DatesRejected(v, start, end, now) then Err(BookingError)
    else Ok(Booking(id, start, end, item.value, booker.value, Status.Waiting))
  }

  /** An unavailable item the booker owns reports unavailability, not self-booking:
      availability is checked first. */
  lemma UnavailableOwnItemReportsUnavailable(v: Variant, booker: User, item: Item,
                                             start: Time, end: Time, now: Time, id: int)
    requires !item.available && item.owner.id == booker.id
    ensures CreateDecision(v, Some(booker), Some(item), booker.id, start, end, now, id) == Err(BookingError)
  {
  }

  /** Only the legacy service refuses dates in the past: a booking wholly in
      the past with start before end is accepted by the two other versions. */
  lemma OnlyLegacyRefusesPastDates(booker: User, item: Item, start: Time, end: Time, now: Time, id: int)
    requires item.available && item.owner.id != booker.id && start < end < now
    ensures CreateDecision(Server, Some(booker), Some(item), booker.id, start, end, now, id).Ok?
    ensures CreateDecision(ServiceImpl, Some(booker), Some(item), booker.id, start, end, now, id).Ok?
    ensures CreateDecision(LegacyService, Some(booker), Some(item), booker.id, start, end, now, id) == Err(BookingError)
  {
  }

  /** `create`: looks up the booker and the item, runs the checks, and on
      success saves a WAITING booking under the next generated id. */
  method Create(db: Database, v: Variant, userId: int, itemId: int, start: Time, end: Time, now: Time)
    returns (r: Result<Booking>)
    requires db.Valid()
    modifies db
    ensures db.Valid()
    ensures r == CreateDecision(v, FindUser(old(db.users), userId), FindItem(old(db.items), itemId),
                                userId, start, end, now, old(db.bookingSeq) + 1)
    ensures r.Ok? ==> db.bookings == old(db.bookings) + [r.value] && db.bookingSeq == old(db.bookingSeq) + 1
    ensures r.Err? ==> db.bookings == old(db.bookings) && db.bookingSeq == old(db.bookingSeq)
    ensures db.users == old(db.users) && db.items == old(db.items) && db.comments == old(db.comments)
    ensures db.requests == old(db.requests) && db.itemSeq == old(db.itemSeq) && db.commentSeq == old(db.commentSeq)
  {
    var booker := FindUser(db.users, userId);
    if booker.None? {
      return Err(NotFound);
    }
    var item := FindItem(db.items, itemId);
    if item.None? {
      return Err(NotFound);
    }
    if !item.value.available {
      return Err(BookingError);
    }
    if item.value.owner.id == userId {
      return Err(SelfBooking);
    }
    if DatesRejected(v, start, end, now) {
      return Err(BookingError);
    }
    db.bookingSeq := db.bookingSeq + 1;
    var booking := Booking(db.bookingSeq, start, end, item.value, booker.value, Status.Waiting);
    db.bookings := db.bookings + [booking];
    r := Ok(booking);
  }

  /** The outcome of `update` on the looked-up booking: only the item's owner
      may decide, and only once. A missing booking and a caller who is not the
      owner both get NotFound, never a distinct kind. */
  function UpdateDecision(b: Option<Booking>, ownerId: int, approved: bool): (r: Result<Booking>)
    ensures b.None? ==> r == Err(NotFound)
    ensures b.Some? && b.value.item.owner.id != ownerId ==> r == Err(NotFound)
    ensures b.Some? && b.value.item.owner.id == ownerId &&
              (b.value.status == Status.Approved || b.value.status == Status.Rejected) ==>
              r == Err(BookingError)
    ensures r.Ok? <==> b.Some? && b.value.item.owner.id == ownerId &&
                       b.value.status != Status.Approved && b.value.status != Status.Rejected
    ensures r.Ok? ==> r.value == b.value.(status := if approved then Status.Approved else Status.Rejected)
    ensures r.Err? ==> r.error == NotFound || r.error == BookingError
  {
    if b.None? || b.value.item.owner.id != ownerId then Err(NotFound)
    else if b.value.status == Status.Approved || b.value.status == Status.Rejected then Err(BookingError)
    else Ok(b.value.(status := if approved then Status.Approved else Status.Rejected))
  }

  /** A decision is terminal: deciding an already decided booking fails with
      BookingError whatever either `approved` value is. */
  lemma DecisionIsTerminal(b: Booking, ownerId: int, first: bool, second: bool)
    requires UpdateDecision(Some(b), ownerId, first).Ok?
    ensures UpdateDecision(Some(UpdateDecision(Some(b), ownerId, first).value), ownerId, second) == Err(BookingError)
  {
  }

  /** `update`: decides the booking and writes the new status back. */
  method Update(db: Database, ownerId: int, bookingId: int, approved: bool) returns (r: Result<Booking>)
    requires db.Valid()
    modifies db
    ensures db.Valid()
    ensures r == UpdateDecision(FindBooking(old(db.bookings), bookingId), ownerId, approved)
    ensures r.Ok? ==> db.bookings == old(db.bookings)[BookingIndex(old(db.bookings), bookingId).value := r.value]
    ensures r.Err? ==> db.bookings == old(db.bookings)
    ensures db.users == old(db.users) && db.items == old(db.items) && db.comments == old(db.comments)
    ensures db.requests == old(db.requests) && db.bookingSeq == old(db.bookingSeq)
    ensures db.itemSeq == old(db.itemSeq) && db.commentSeq == old(db.commentSeq)
  {
    var i := BookingIndex(db.bookings, bookingId);
    if i.None? {
      return Err(NotFound);
    }
    var booking := db.bookings[i.value];
    if booking.item.owner.id != ownerId {
      return Err(NotFound);
    }
    if booking.status == Status.Approved || booking.status == Status.Rejected {
      return Err(BookingError);
    }
    booking := booking.(status := if approved then Status.Approved else Status.Rejected);
    db.bookings := db.bookings[i.value := booking];
    r := Ok(booking);
  }

  /** A second `update` on the table the first one left behind fails with
      BookingError, whatever either `approved` value is. */
  lemma SecondUpdateFails(bookings: seq<Booking>, ownerId: int, bookingId: int, first: bool, second: bool)
    requires UpdateDecision(FindBooking(bookings, bookingId), ownerId, first).Ok?
    ensures var decided := UpdateDecision(FindBooking(bookings, bookingId), ownerId, first).value;
            var after := bookings[BookingIndex(bookings, bookingId).value := decided];
            UpdateDecision(FindBooking(after, bookingId), ownerId, second) == Err(BookingError)
  {
    var decided := UpdateDecision(FindBooking(bookings, bookingId), ownerId, first).value;
    FindAfterWriteBack(bookings, bookingId, BookingId, decided);
  }

  /** `getById`: the booking is shown to its booker and to the item's owner
      only; anyone else, like a missing id, gets NotFound. */
  function GetById(bookings: seq<Booking>, bookingId: int, userId: int): (r: Result<Booking>)
    ensures r.Ok? <==> FindBooking(bookings, bookingId).Some? &&
                       (FindBooking(bookings, bookingId).value.item.owner.id == userId ||
                        FindBooking(bookings, bookingId).value.booker.id == userId)
    ensures r.Ok? ==> r.value in bookings && r.value.id == bookingId
    ensures r.Err? ==> r.error == NotFound
  {
    var b := FindBooking(bookings, bookingId);
    if b.None? then Err(NotFound)
    else if !(b.value.item.owner.id == userId || b.value.booker.id == userId) then Err(NotFound)
    else Ok(b.value)
  }

  /** A page of a sorted listing is sorted. */
  lemma PageOfSorted(o: Order, s: seq<Booking>, page: Option<PageRequest>)
    requires Sorted(o, s)
    ensures Sorted(o, ApplyPage(s, page))
  {
    if page.Some? && Offset(page.value) < |s| {
      var lo := Offset(page.value);
      SliceOfSorted(o, s, lo, if lo + page.value.size <= |s| then lo + page.value.size else |s|);
    }
  }

  /** The user a listing is about, who must exist. */
  function ScopeUser(sc: Scope): int
  {
    match sc
    case ByBooker(u) => u
    case ByOwner(o) => o
  }

  /** The server's `getBookingsByBookerId` (scope `ByBooker`) and
      `getItemBookingsByOwnerId` (scope `ByOwner`): the user must exist; the
      state is an enum, every value other than the five named branches (that
      is, ALL) falls to the `default` branch that lists everything; the
      optional page is applied to the sorted result. */
  function ServerListing(users: map<int, User>, bookings: seq<Booking>, sc: Scope, st: State,
                         page: Option<PageRequest>, now: Time): (r: Result<seq<Booking>>)
    ensures ScopeUser(sc) !in users <==> r == Err(NotFound)
    ensures r.Err? ==> r.error == NotFound
    ensures r.Ok? ==> Sorted(Desc, r.value)
    ensures r.Ok? ==> forall x :: x in r.value ==> x in bookings && InScope(sc, x) && InState(st, x, now)
    ensures r.Ok? && page.None? ==>
              forall x :: x in r.value <==> x in bookings && InScope(sc, x) && InState(st, x, now)
    ensures r.Ok? && page.None? ==> r.value == FindAll(bookings, sc, st, now)
    ensures r.Ok? && page.Some? ==> |r.value| <= page.value.size
    ensures r.Ok? && page.Some? ==>
              var all := FindAll(bookings, sc, st, now);
              |r.value| == PageLength(|all|, page.value) &&
              forall i :: 0 <= i < |r.value| ==> r.value[i] == all[Offset(page.value) + i]
  {
    if ScopeUser(sc) !in users then Err(NotFound)
    else
      var all := FindAll(bookings, sc, st, now);
      var paged := ApplyPage(all, page);
      PageOfSorted(Desc, all, page);
      Ok(paged)
  }

  /** The string-state listings of `ServiceImpl` and `LegacyService`: the user
      lookup comes first, so a missing user is NotFound even for an unknown
      state; an unknown state is UnsupportedState; no paging. */
  function NamedListing(users: map<int, User>, bookings: seq<Booking>, sc: Scope, state: string,
                        now: Time): (r: Result<seq<Booking>>)
    ensures ScopeUser(sc) !in users ==> r == Err(NotFound)
    ensures ScopeUser(sc) in users && ParseState(state).None? ==> r == Err(UnsupportedState)
    ensures r.Ok? <==> ScopeUser(sc) in users && ParseState(state).Some?
    ensures r.Ok? ==> Sorted(Desc, r.value)
    ensures r.Ok? ==> forall x :: x in r.value <==>
              x in bookings && InScope(sc, x) && InState(ParseState(state).value, x, now)
  {
    if ScopeUser(sc) !in users then Err(NotFound)
    else
      match ParseState(state)
      case None => Err(UnsupportedState)
      case Some(st) => Ok(FindAll(bookings, sc, st, now))
  }

  /** On a recognised state and without paging, the string listings return
      exactly what the server listing returns. */
  lemma NamedListingAgreesWithServer(users: map<int, User>, bookings: seq<Booking>, sc: Scope,
                                     st: State, now: Time)
    ensures NamedListing(users, bookings, sc, StateName(st), now) == ServerListing(users, bookings, sc, st, None, now)
  {
    ParseStateIffName(StateName(st), st);
  }

  /** The server listing never reports UnsupportedState, while the string
      listings do for every string that names no state. */
  lemma OnlyNamedListingRejectsStates(users: map<int, User>, bookings: seq<Booking>, sc: Scope,
                                      st: State, page: Option<PageRequest>, state: string, now: Time)
    requires ScopeUser(sc) in users
    requires forall s: State :: state != StateName(s)
    ensures ServerListing(users, bookings, sc, st, page, now).Ok?
    ensures NamedListing(users, bookings, sc, state, now) == Err(UnsupportedState)
  {
    UnknownNameUnrecognised(state);
  }
}
