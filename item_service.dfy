/** The item service of the database era, in its two versions:
    `WithRequests` is src/.../item/ItemServiceImpl.java (items may answer a
    rental request, owner listings are paged) and `WithoutRequests` is
    src/.../item/service/ItemServiceImpl.java. Both work on the `Database`. */
module ItemService {
  import opened Common
  import opened Domain
  import opened Pagination
  import opened BookingQueries
  import opened Store
  import opened ItemProjection

  datatype ItemVariant = WithRequests | WithoutRequests

  /** What `get` and `getByUserId` return: the item with its last and next
      approved bookings (absent when not shown) and its comments. */
  datatype ItemView = ItemView(item: Item, lastBooking: Option<Booking>, nextBooking: Option<Booking>,
                               comments: seq<Comment>)

  /** `commentService.findAllByItemId(itemId)`, in table order. */
  function CommentsOf(comments: seq<Comment>, itemId: int): (r: seq<Comment>)
    ensures |r| <= |comments|
    ensures forall c :: c in r <==> c in comments && c.item.id == itemId
  {
    if comments == [] then []
    else
      var rest := CommentsOf(comments[1..], itemId);
      assert comments == [comments[0]] + comments[1..];
      if comments[0].item.id == itemId then [comments[0]] + rest else rest
  }

  /** The outcome of `create` on the looked-up owner, where `id` is the id the
      items table would assign. The user lookup comes first; the version with
      requests then resolves a given request id, which must exist; the older
      version stores no request. */
  function CreateDecision(v: ItemVariant, owner: Option<User>, requests: set<int>, name: string,
                          description: string, available: bool, requestId: Option<int>, id: int): (r: Result<Item>)
    ensures owner.None? ==> r == Err(NotFound)
    ensures r.Ok? <==> owner.Some? && (v == WithRequests && requestId.Some? ==> requestId.value in requests)
    ensures r.Err? ==> r.error == NotFound
    ensures r.Ok? ==> r.value.id == id && r.value.owner == owner.value && r.value.name == name &&
                      r.value.description == description && r.value.available == available
    ensures r.Ok? ==> r.value.request == (if v == WithRequests then requestId else None)
  {
    if owner.None? then Err(NotFound)
    else if v == WithRequests && requestId.Some? && requestId.value !in requests then Err(NotFound)
    else Ok(Item(id, name, description, available, owner.value, if v == WithRequests then requestId else None))
  }

  /** `create`: saves the new item under the next generated id. */
  method Create(db: Database, v: ItemVariant, userId: int, name: string, description: string,
                available: bool, requestId: Option<int>) returns (r: Result<Item>)
    requires db.Valid()
    modifies db
    ensures db.Valid()
    ensures r == CreateDecision(v, FindUser(old(db.users), userId), old(db.requests), name, description,
                                available, requestId, old(db.itemSeq) + 1)
    ensures r.Ok? ==> db.items == old(db.items) + [r.value] && db.itemSeq == old(db.itemSeq) + 1
    ensures r.Err? ==> db.items == old(db.items) && db.itemSeq == old(db.itemSeq)
    ensures db.users == old(db.users) && db.bookings == old(db.bookings) && db.comments == old(db.comments)
    ensures db.requests == old(db.requests) && db.bookingSeq == old(db.bookingSeq) && db.commentSeq == old(db.commentSeq)
  {
    var owner := FindUser(db.users, userId);
    if owner.None? {
      return Err(NotFound);
    }
    var request: Option<int> := None;
    if v == WithRequests && requestId.Some? {
      if requestId.value !in db.requests {
        return Err(NotFound);
      }
      request := requestId;
    }
    db.itemSeq := db.itemSeq + 1;
    var item := Item(db.itemSeq, name, description, available, owner.value, request);
    db.items := db.items + [item];
    r := Ok(item);
  }

  /** Writing a row back at the position `findById` found it, with its id
      kept, keeps the items table in id order. */
  lemma WriteBackKeepsOrder(items: seq<Item>, i: nat, it: Item)
    requires ItemIdsIncrease(items) && i < |items| && it.id == items[i].id
    ensures ItemIdsIncrease(items[i := it])
  {
  }

  /** `update`: applies the patch and writes the item back (the older version
      saves it, the newer one relies on the transaction flushing it; the
      stored result is the same). */
  method Update(db: Database, itemId: int, userId: int, patch: ItemPatch) returns (r: Result<Item>)
    requires db.Valid()
    modifies db
    ensures db.Valid()
    ensures r == UpdateItemDecision(FindUser(old(db.users), userId), FindItem(old(db.items), itemId), patch)
    ensures r.Ok? ==> db.items == old(db.items)[ItemIndex(old(db.items), itemId).value := r.value]
    ensures r.Err? ==> db.items == old(db.items)
    ensures db.users == old(db.users) && db.bookings == old(db.bookings) && db.comments == old(db.comments)
    ensures db.requests == old(db.requests) && db.itemSeq == old(db.itemSeq)
    ensures db.bookingSeq == old(db.bookingSeq) && db.commentSeq == old(db.commentSeq)
  {
    var user := FindUser(db.users, userId);
    if user.None? {
      return Err(NotFound);
    }
    var i := ItemIndex(db.items, itemId);
    if i.None? {
      return Err(NotFound);
    }
    var item := db.items[i.value];
    if user.value != item.owner {
      return Err(NotFound);
    }
    if patch.name.Some? {
      item := item.(name := patch.name.value);
    }
    if patch.description.Some? {
      item := item.(description := patch.description.value);
    }
    if patch.available.Some? {
      item := item.(available := patch.available.value);
    }
    WriteBackKeepsOrder(db.items, i.value, item);
    db.items := db.items[i.value := item];
    r := Ok(item);
  }

  /** The comment gate as written: the user must have some booking that ended
      before `now`, of any item and in any status
      (`findAllByBookerIdAndEndBefore...` is not empty). */
  function CommentGateAsWritten(bookings: seq<Booking>, userId: int, now: Time): (r: bool)
    ensures r <==> exists b :: b in bookings && b.booker.id == userId && b.end < now
  {
    var past := FindAll(bookings, ByBooker(userId), Past, now);
    assert forall b :: b in past <==> b in bookings && b.booker.id == userId && b.end < now;
    past != []
  }

  /** The comment gate as intended by its own error message ("did not book
      this item"): the user must have a booking of this item that ended before `now`. */
  function CommentGate(bookings: seq<Booking>, userId: int, itemId: int, now: Time): (r: bool)
    ensures r <==> exists b :: b in bookings && b.booker.id == userId && b.item.id == itemId && b.end < now
  {
    var past := FindAll(bookings, ByBooker(userId), Past, now);
    exists b :: b in past && b.item.id == itemId
  }

  /** The intended gate is never more permissive than the written one. */
  lemma CommentGateImpliesWritten(bookings: seq<Booking>, userId: int, itemId: int, now: Time)
    requires CommentGate(bookings, userId, itemId, now)
    ensures CommentGateAsWritten(bookings, userId, now)
  {
  }

  /** The written gate lets a user comment on an item they never booked: one
      finished booking of another item is enough. */
  lemma CommentGateAsWrittenAdmitsStranger()
    ensures var owner := User(1, "owner", "owner@example.com");
            var stranger := User(2, "guest", "guest@example.com");
            var drill := Item(10, "drill", "a drill", true, owner, None);
            var saw := Item(11, "saw", "a saw", true, owner, None);
            var bookings := [Booking(100, 1, 2, saw, stranger, Status.Approved)];
            CommentGateAsWritten(bookings, stranger.id, 5) && !CommentGate(bookings, stranger.id, drill.id, 5)
  {
    var owner := User(1, "owner", "owner@example.com");
    var stranger := User(2, "guest", "guest@example.com");
    var saw := Item(11, "saw", "a saw", true, owner, None);
    var b := Booking(100, 1, 2, saw, stranger, Status.Approved);
    assert b in [b];
  }

  /** The outcome of `comment` on the looked-up user and item and the gate's
      verdict, where `id` is the id the comments table would assign. */
  function CommentDecision(user: Option<User>, item: Option<Item>, allowed: bool, text: string,
                           now: Time, id: int): (r: Result<Comment>)
    ensures user.None? || item.None? ==> r == Err(NotFound)
    ensures user.Some? && item.Some? && !allowed ==> r == Err(BookingError)
    ensures r.Ok? <==> user.Some? && item.Some? && allowed
    ensures r.Ok? ==> r.value == Comment(id, text, item.value, user.value, now)
  {
    if user.None? || item.None? then Err(NotFound)
    else if !allowed then Err(BookingError)
    else Ok(Comment(id, text, item.value, user.value, now))
  }

  /** `comment`, with the gate restricted to the commented item: the comment
      is stored with the user as author, the item, and `now` as its time. */
  method AddComment(db: Database, userId: int, itemId: int, text: string, now: Time) returns (r: Result<Comment>)
    requires db.Valid()
    modifies db
    ensures db.Valid()
    ensures r == CommentDecision(FindUser(old(db.users), userId), FindItem(old(db.items), itemId),
                                 CommentGate(old(db.bookings), userId, itemId, now), text, now,
                                 old(db.commentSeq) + 1)
    ensures r.Ok? ==> db.comments == old(db.comments) + [r.value] && db.commentSeq == old(db.commentSeq) + 1
    ensures r.Err? ==> db.comments == old(db.comments) && db.commentSeq == old(db.commentSeq)
    ensures db.users == old(db.users) && db.items == old(db.items) && db.bookings == old(db.bookings)
    ensures db.requests == old(db.requests) && db.itemSeq == old(db.itemSeq) && db.bookingSeq == old(db.bookingSeq)
  {
    var user := FindUser(db.users, userId);
    if user.None? {
      return Err(NotFound);
    }
    var item := FindItem(db.items, itemId);
    if item.None? {
      return Err(NotFound);
    }
    if !CommentGate(db.bookings, userId, itemId, now) {
      return Err(BookingError);
    }
    db.commentSeq := db.commentSeq + 1;
    var comment := Comment(db.commentSeq, text, item.value, user.value, now);
    db.comments := db.comments + [comment];
    r := Ok(comment);
  }

  /** An item with the last and next of its approved bookings and its
      comments, as `get` shows it to the owner and `getByUserId` shows every row. */
  function WithBookings(bookings: seq<Booking>, comments: seq<Comment>, item: Item, now: Time): (r: ItemView)
    ensures r.item == item
  {
    var approved := ApprovedBookingsOf(bookings, item.id);
    ItemView(item, LastBooking(approved, now), NextBooking(approved, now), CommentsOf(comments, item.id))
  }

  /** What the attached entries mean: the last booking is, among the item's
      approved bookings that started before `now`, one that ends latest; the
      next booking is, among those starting after `now`, one that starts
      soonest; each is absent exactly when there is no candidate; the
      comments are exactly the item's. */
  lemma WithBookingsMeaning(bookings: seq<Booking>, comments: seq<Comment>, item: Item, now: Time)
    ensures var r := WithBookings(bookings, comments, item, now);
            forall c :: c in r.comments <==> c in comments && c.item.id == item.id
    ensures var r := WithBookings(bookings, comments, item, now);
            r.lastBooking.Some? ==>
              var b := r.lastBooking.value;
              b in bookings && b.item.id == item.id && b.status == Status.Approved && b.start < now &&
              forall x :: x in bookings && x.item.id == item.id && x.status == Status.Approved && x.start < now ==>
                x.end <= b.end
    ensures WithBookings(bookings, comments, item, now).lastBooking.None? <==>
              forall x :: x in bookings && x.item.id == item.id && x.status == Status.Approved ==> x.start >= now
    ensures var r := WithBookings(bookings, comments, item, now);
            r.nextBooking.Some? ==>
              var b := r.nextBooking.value;
              b in bookings && b.item.id == item.id && b.status == Status.Approved && b.start > now &&
              forall x :: x in bookings && x.item.id == item.id && x.status == Status.Approved && x.start > now ==>
                b.start <= x.start
    ensures WithBookings(bookings, comments, item, now).nextBooking.None? <==>
              forall x :: x in bookings && x.item.id == item.id && x.status == Status.Approved ==> x.start <= now
  {
  }

  /** `get`: the item with its comments; the last and next bookings are
      attached only when the caller owns the item. */
  function GetItem(items: seq<Item>, bookings: seq<Booking>, comments: seq<Comment>, itemId: int,
                   userId: int, now: Time): (r: Result<ItemView>)
    ensures r.Err? <==> FindItem(items, itemId).None?
    ensures r.Err? ==> r.error == NotFound
    ensures r.Ok? ==> r.value.item == FindItem(items, itemId).value
    ensures r.Ok? && r.value.item.owner.id == userId ==> r.value == WithBookings(bookings, comments, r.value.item, now)
    ensures r.Ok? && r.value.item.owner.id != userId ==>
              r.value.lastBooking.None? && r.value.nextBooking.None? &&
              r.value.comments == WithBookings(bookings, comments, r.value.item, now).comments
  {
    var item := FindItem(items, itemId);
    if item.None? then Err(NotFound)
    else
      var view := WithBookings(bookings, comments, item.value, now);
      if item.value.owner.id == userId then Ok(view)
      else Ok(view.(lastBooking := None, nextBooking := None))
  }

  /** `itemRepository.findAllByOwnerIdOrderByIdAsc(userId)`: the user's items
      in table (that is, id) order. */
  function ItemsOwnedBy(items: seq<Item>, userId: int): (r: seq<Item>)
    ensures |r| <= |items|
    ensures forall x :: x in r <==> x in items && x.owner.id == userId
    ensures ItemIdsIncrease(items) ==> ItemIdsIncrease(r)
  {
    if items == [] then []
    else
      var rest := ItemsOwnedBy(items[1..], userId);
      assert items == [items[0]] + items[1..];
      if items[0].owner.id == userId then
        assert ItemIdsIncrease(items) ==> forall k :: 0 <= k < |rest| ==> items[0].id < rest[k].id by {
          if ItemIdsIncrease(items) {
            forall k | 0 <= k < |rest| ensures items[0].id < rest[k].id {
              assert rest[k] in items[1..];
            }
          }
        }
        [items[0]] + rest
      else rest
  }

  /** A page of a table in id order is in id order. */
  lemma PageKeepsIdOrder(items: seq<Item>, page: Option<PageRequest>)
    ensures ItemIdsIncrease(items) ==> ItemIdsIncrease(ApplyPage(items, page))
  {
    var rows := ApplyPage(items, page);
    if ItemIdsIncrease(items) && page.Some? && Offset(page.value) < |items| {
      var lo := Offset(page.value);
      forall i, j | 0 <= i < j < |rows| ensures rows[i].id < rows[j].id {
        assert rows[i] == items[lo + i] && rows[j] == items[lo + j];
      }
    }
  }

  /** Each row with its bookings and comments attached. */
  function Views(bookings: seq<Booking>, comments: seq<Comment>, rows: seq<Item>, now: Time): (r: seq<ItemView>)
    ensures |r| == |rows|
    ensures forall i :: 0 <= i < |r| ==> r[i].item == rows[i]
    ensures forall i :: 0 <= i < |r| ==> r[i] == WithBookings(bookings, comments, rows[i], now)
  {
    seq(|rows|, i requires 0 <= i < |rows| => WithBookings(bookings, comments, rows[i], now))
  }

  /** `getByUserId`: the owner's items in id order, the page of them asked
      for (the older version has no paging: `page` is `None`), each with its
      last and next approved bookings and its comments. */
  function GetByUserId(items: seq<Item>, bookings: seq<Booking>, comments: seq<Comment>, userId: int,
                       page: Option<PageRequest>, now: Time): (r: seq<ItemView>)
    ensures page.Some? ==> |r| <= page.value.size
    ensures page.None? ==> |r| <= |items|
  {
    Views(bookings, comments, ApplyPage(ItemsOwnedBy(items, userId), page), now)
  }

  /** The rows of `getByUserId` are items of the user, each with its bookings
      and comments attached. */
  lemma GetByUserIdRows(items: seq<Item>, bookings: seq<Booking>, comments: seq<Comment>, userId: int,
                        page: Option<PageRequest>, now: Time)
    ensures var r := GetByUserId(items, bookings, comments, userId, page, now);
            forall i :: 0 <= i < |r| ==> r[i].item in items && r[i].item.owner.id == userId &&
                                         r[i] == WithBookings(bookings, comments, r[i].item, now)
  {
    var rows := ApplyPage(ItemsOwnedBy(items, userId), page);
    var r := GetByUserId(items, bookings, comments, userId, page, now);
    forall i | 0 <= i < |r|
      ensures r[i].item in items && r[i].item.owner.id == userId
      ensures r[i] == WithBookings(bookings, comments, r[i].item, now)
    {
      assert r[i].item == rows[i] && rows[i] in rows;
    }
  }

  /** The rows of `getByUserId` are in increasing id order when the table is. */
  lemma GetByUserIdOrder(items: seq<Item>, bookings: seq<Booking>, comments: seq<Comment>, userId: int,
                         page: Option<PageRequest>, now: Time)
    requires ItemIdsIncrease(items)
    ensures var r := GetByUserId(items, bookings, comments, userId, page, now);
            forall i, j :: 0 <= i < j < |r| ==> r[i].item.id < r[j].item.id
  {
    var owned := ItemsOwnedBy(items, userId);
    var rows := ApplyPage(owned, page);
    PageKeepsIdOrder(owned, page);
    var r := GetByUserId(items, bookings, comments, userId, page, now);
    assert forall i :: 0 <= i < |r| ==> r[i].item == rows[i];
  }

  /** Without paging, every item of the user appears in `getByUserId`. */
  lemma GetByUserIdCoverage(items: seq<Item>, bookings: seq<Booking>, comments: seq<Comment>, userId: int, now: Time)
    ensures var r := GetByUserId(items, bookings, comments, userId, None, now);
            forall x :: x in items && x.owner.id == userId <==> exists i :: 0 <= i < |r| && r[i].item == x
  {
    var rows := ItemsOwnedBy(items, userId);
    var r := GetByUserId(items, bookings, comments, userId, None, now);
    assert ApplyPage(rows, None) == rows;
    forall x | x in items && x.owner.id == userId ensures exists i :: 0 <= i < |r| && r[i].item == x {
      assert x in rows;
      var i :| 0 <= i < |rows| && rows[i] == x;
      assert r[i].item == x;
    }
    GetByUserIdRows(items, bookings, comments, userId, None, now);
  }

  /** With a page, `getByUserId` returns exactly that page of the owner's
      items in id order, each with its bookings and comments attached. */
  lemma GetByUserIdPage(items: seq<Item>, bookings: seq<Booking>, comments: seq<Comment>, userId: int,
                        page: PageRequest, now: Time)
    ensures var owned := ItemsOwnedBy(items, userId);
            var r := GetByUserId(items, bookings, comments, userId, Some(page), now);
            |r| == PageLength(|owned|, page) &&
            forall i :: 0 <= i < |r| ==> r[i] == WithBookings(bookings, comments, owned[Offset(page) + i], now)
  {
    var owned := ItemsOwnedBy(items, userId);
    var rows := ApplyPage(owned, Some(page));
    var r := Views(bookings, comments, rows, now);
    assert |rows| == PageLength(|owned|, page);
    forall i | 0 <= i < |r|
      ensures r[i] == WithBookings(bookings, comments, owned[Offset(page) + i], now)
    {
      assert rows[i] == owned[Offset(page) + i];
    }
  }

  /** `getBySearchText`: blank text returns nothing without querying;
      otherwise the page asked for of what the repository's text query
      `found` returns (the older version has no paging). */
  function SearchByText(text: string, found: seq<Item>, page: Option<PageRequest>): (r: seq<Item>)
    ensures IsBlank(text) ==> r == []
    ensures !IsBlank(text) && page.None? ==> r == found
    ensures forall x :: x in r ==> x in found
    ensures page.Some? ==> |r| <= page.value.size
    ensures !IsBlank(text) && page.Some? ==>
              |r| == PageLength(|found|, page.value) &&
              forall i :: 0 <= i < |r| ==> r[i] == found[Offset(page.value) + i]
  {
    if IsBlank(text) then [] else ApplyPage(found, page)
  }

  /** Removes the row with id `id` (`deleteById`). */
  function RemoveItem(items: seq<Item>, id: int): (r: seq<Item>)
    ensures |r| <= |items|
    ensures forall x :: x in r <==> x in items && x.id != id
    ensures ItemIdsIncrease(items) ==> ItemIdsIncrease(r)
  {
    if items == [] then []
    else
      var rest := RemoveItem(items[1..], id);
      assert items == [items[0]] + items[1..];
      if items[0].id == id then rest
      else
        assert ItemIdsIncrease(items) ==> forall k :: 0 <= k < |rest| ==> items[0].id < rest[k].id by {
          if ItemIdsIncrease(items) {
            forall k | 0 <= k < |rest| ensures items[0].id < rest[k].id {
              assert rest[k] in items[1..];
            }
          }
        }
        [items[0]] + rest
  }

  /** `delete`: NotFound when no item has the id; otherwise that row is removed. */
  method Delete(db: Database, itemId: int) returns (err: Option<Error>)
    requires db.Valid()
    modifies db
    ensures db.Valid()
    ensures err.None? <==> FindItem(old(db.items), itemId).Some?
    ensures err.Some? ==> err.value == NotFound && db.items == old(db.items)
    ensures err.None? ==> db.items == RemoveItem(old(db.items), itemId)
    ensures db.users == old(db.users) && db.bookings == old(db.bookings) && db.comments == old(db.comments)
    ensures db.requests == old(db.requests) && db.itemSeq == old(db.itemSeq)
    ensures db.bookingSeq == old(db.bookingSeq) && db.commentSeq == old(db.commentSeq)
  {
    if FindItem(db.items, itemId).None? {
      return Some(NotFound);
    }
    db.items := RemoveItem(db.items, itemId);
    err := None;
  }
}
