/** The last and next booking an item's owner sees, as the two private
    helpers `getLastBooking` and `getNextBooking` of the item services compute
    them: a stream filter followed by `min`/`max`. Java's `Stream.min` and
    `Stream.max` reduce from the left and keep the accumulated element on a
    tie, so among equally good bookings the earliest in the list wins. */
module ItemProjection {
  import opened Common
  import opened Domain
  import opened BookingQueries

  /** Position `i` holds the next booking of `bs`: it starts after `now`, no
      booking starting after `now` starts earlier, and every one before it in
      the list starts strictly later (so it is the first of the earliest). */
  ghost predicate IsNextAt(bs: seq<Booking>, now: Time, i: int)
  {
    && 0 <= i < |bs|
    && bs[i].start > now
    && (forall j :: 0 <= j < |bs| && bs[j].start > now ==> bs[i].start <= bs[j].start)
    && (forall j :: 0 <= j < i && bs[j].start > now ==> bs[j].start > bs[i].start)
  }

  /** Position `i` holds the last booking of `bs`: it started before `now`, no
      booking started before `now` ends later, and every one before it in the
      list ends strictly earlier (so it is the first of the latest-ending). */
  ghost predicate IsLastAt(bs: seq<Booking>, now: Time, i: int)
  {
    && 0 <= i < |bs|
    && bs[i].start < now
    && (forall j :: 0 <= j < |bs| && bs[j].start < now ==> bs[j].end <= bs[i].end)
    && (forall j :: 0 <= j < i && bs[j].start < now ==> bs[j].end < bs[i].end)
  }

  /** The position `getNextBooking` picks: the left fold of `minBy(start)` over
      the bookings with `start > now`; a later element replaces the
      accumulator only when it starts strictly earlier. */
  function NextIndex(bs: seq<Booking>, now: Time): (r: Option<nat>)
    ensures r.None? <==> forall j :: 0 <= j < |bs| ==> bs[j].start <= now
    ensures r.Some? ==> IsNextAt(bs, now, r.value)
  {
    if bs == [] then None
    else
      var k := |bs| - 1;
      var prev := NextIndex(bs[..k], now);
      assert forall j :: 0 <= j < k ==> bs[..k][j] == bs[j];
      if bs[k].start <= now then prev
      else if prev.None? || bs[k].start < bs[prev.value].start then Some(k)
      else prev
  }

  /** The position `getLastBooking` picks: the left fold of `maxBy(end)` over
      the bookings with `start < now`; a later element replaces the
      accumulator only when it ends strictly later. */
  function LastIndex(bs: seq<Booking>, now: Time): (r: Option<nat>)
    ensures r.None? <==> forall j :: 0 <= j < |bs| ==> bs[j].start >= now
    ensures r.Some? ==> IsLastAt(bs, now, r.value)
  {
    if bs == [] then None
    else
      var k := |bs| - 1;
      var prev := LastIndex(bs[..k], now);
      assert forall j :: 0 <= j < k ==> bs[..k][j] == bs[j];
      if bs[k].start >= now then prev
      else if prev.None? || bs[k].end > bs[prev.value].end then Some(k)
      else prev
  }

  /** `getNextBooking`: the booking starting soonest after `now`, if any. */
  function NextBooking(bs: seq<Booking>, now: Time): (r: Option<Booking>)
    ensures r.None? <==> forall x :: x in bs ==> x.start <= now
    ensures r.Some? ==> r.value in bs && r.value.start > now
    ensures r.Some? ==> forall x :: x in bs && x.start > now ==> r.value.start <= x.start
  {
    var i := NextIndex(bs, now);
    if i.None? then None else Some(bs[i.value])
  }

  /** `getLastBooking`: among the bookings started before `now`, the one that
      ends latest, if any. */
  function LastBooking(bs: seq<Booking>, now: Time): (r: Option<Booking>)
    ensures r.None? <==> forall x :: x in bs ==> x.start >= now
    ensures r.Some? ==> r.value in bs && r.value.start < now
    ensures r.Some? ==> forall x :: x in bs && x.start < now ==> x.end <= r.value.end
  {
    var i := LastIndex(bs, now);
    if i.None? then None else Some(bs[i.value])
  }

  /** A booking starting exactly at `now` is neither the last nor the next one. */
  lemma StartingNowIsNeither(bs: seq<Booking>, now: Time, b: Booking)
    requires b.start == now
    ensures NextBooking(bs, now) != Some(b)
    ensures LastBooking(bs, now) != Some(b)
  {
  }

  /** The pick is the first of its kind: on the ascending list the item
      services pass in, the next booking is the first one starting after
      `now`. */
  lemma {:induction false} NextOfAscendingIsFirstFuture(bs: seq<Booking>, now: Time)
    requires Sorted(Asc, bs)
    requires NextIndex(bs, now).Some?
    ensures forall j :: 0 <= j < NextIndex(bs, now).value ==> bs[j].start <= now
  {
    var i := NextIndex(bs, now).value;
    forall j | 0 <= j < i
      ensures bs[j].start <= now
    {
      assert Precedes(Asc, bs[j], bs[i]);
    }
  }

  /** The positions the folds pick are determined by the specifications alone. */
  lemma PicksAreUnique(bs: seq<Booking>, now: Time, i: int, j: int)
    ensures IsNextAt(bs, now, i) && IsNextAt(bs, now, j) ==> i == j
    ensures IsLastAt(bs, now, i) && IsLastAt(bs, now, j) ==> i == j
  {
  }

  /** `bookingRepository.findAllByItemIdAndStatusOrderByStartAsc(itemId, APPROVED)`. */
  function ApprovedBookingsOf(bookings: seq<Booking>, itemId: int): (r: seq<Booking>)
    ensures Sorted(Asc, r)
    ensures forall x :: x in r <==> x in bookings && x.item.id == itemId && x.status == Status.Approved
  {
    var r := Sort(Asc, Select(bookings, (b: Booking) => b.item.id == itemId && b.status == Status.Approved));
    assert forall x :: x in r <==> x in multiset(r);
    r
  }
}
