/** The relational store behind the JPA repositories (`UserRepository`,
    `ItemRepository`, `BookingRepository`, `CommentRepository`,
    `RequestRepository`). Tables whose queries return ordered rows are
    sequences of rows in id order; users are a map from id to row; a request
    matters to the core only through its id. */
module Store {
  import opened Common
  import opened Domain

  /** Row ids strictly increase along the items table. */
  predicate ItemIdsIncrease(items: seq<Item>)
  {
    forall i, j :: 0 <= i < j < |items| ==> items[i].id < items[j].id
  }

  /** Row ids strictly increase along the bookings table. */
  predicate BookingIdsIncrease(bookings: seq<Booking>)
  {
    forall i, j :: 0 <= i < j < |bookings| ==> bookings[i].id < bookings[j].id
  }

  /** The id column: the id of an entity row. */
  function ItemId(x: Item): int { x.id }
  function BookingId(b: Booking): int { b.id }

  /** The position of the first row whose id is `id`, the row `findById`
      returns, of a table whose id column is `idOf`. */
  function IndexOf<T>(rows: seq<T>, id: int, idOf: T -> int): (r: Option<nat>)
    ensures r.Some? ==> r.value < |rows| && idOf(rows[r.value]) == id
    ensures r.Some? ==> forall j :: 0 <= j < r.value ==> idOf(rows[j]) != id
    ensures r.None? <==> forall j :: 0 <= j < |rows| ==> idOf(rows[j]) != id
  {
    if rows == [] then None
    else if idOf(rows[0]) == id then Some(0)
    else
      var rest := IndexOf(rows[1..], id, idOf);
      if rest.None? then None else Some(rest.value + 1)
  }

  /** `findById(id)` on a table whose id column is `idOf`. */
  function FindById<T>(rows: seq<T>, id: int, idOf: T -> int): (r: Option<T>)
    ensures r.Some? ==> r.value in rows && idOf(r.value) == id
    ensures r.None? <==> forall j :: 0 <= j < |rows| ==> idOf(rows[j]) != id
  {
    var i := IndexOf(rows, id, idOf);
    if i.None? then None else Some(rows[i.value])
  }

  function ItemIndex(items: seq<Item>, id: int): Option<nat> { IndexOf(items, id, ItemId) }
  function BookingIndex(bookings: seq<Booking>, id: int): Option<nat> { IndexOf(bookings, id, BookingId) }

  /** `itemRepository.findById(id)` and `bookingRepository.findById(id)`. */
  function FindItem(items: seq<Item>, id: int): Option<Item> { FindById(items, id, ItemId) }
  function FindBooking(bookings: seq<Booking>, id: int): Option<Booking> { FindById(bookings, id, BookingId) }

  /** Writing a row back at the position `findById` found it leaves it the
      row `findById` finds, provided the id is kept. */
  lemma {:induction false} FindAfterWriteBack<T>(rows: seq<T>, id: int, idOf: T -> int, b: T)
    requires IndexOf(rows, id, idOf).Some? && idOf(b) == id
    ensures FindById(rows[IndexOf(rows, id, idOf).value := b], id, idOf) == Some(b)
  {
    var i := IndexOf(rows, id, idOf).value;
    var after := rows[i := b];
    if i == 0 {
    } else {
      assert idOf(rows[0]) != id;
      assert after[1..] == rows[1..][i - 1 := b];
      FindAfterWriteBack(rows[1..], id, idOf, b);
    }
  }

  /** `userService.get(id)` / `userRepository.findById(id)`. */
  function FindUser(users: map<int, User>, id: int): (r: Option<User>)
    ensures r.Some? <==> id in users
    ensures r.Some? ==> r.value == users[id]
  {
    if id in users then Some(users[id]) else None
  }

  /** The database. The `...Seq` fields are the last values the IDENTITY
      columns handed out. */
  class Database {
    var users: map<int, User>
    var items: seq<Item>
    var bookings: seq<Booking>
    var comments: seq<Comment>
    var requests: set<int>
    var itemSeq: int
    var bookingSeq: int
    var commentSeq: int

    /** Rows are stored in the order their generated ids were handed out. */
    ghost predicate Valid()
      reads this
    {
      && ItemIdsIncrease(items)
      && (forall i :: 0 <= i < |items| ==> items[i].id <= itemSeq)
      && BookingIdsIncrease(bookings)
      && (forall i :: 0 <= i < |bookings| ==> bookings[i].id <= bookingSeq)
    }

    constructor ()
      ensures Valid()
      ensures users == map[] && items == [] && bookings == [] && comments == [] && requests == {}
      ensures itemSeq == 0 && bookingSeq == 0 && commentSeq == 0
    {
      users, items, bookings, comments, requests := map[], [], [], [], {};
      itemSeq, bookingSeq, commentSeq := 0, 0, 0;
    }
  }
}
