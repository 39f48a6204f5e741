/** The derived queries of the booking repository that the two booking
    listings dispatch to, stated as filter-and-sort over the table of bookings.
    Spring Data derives each query from its method name: `StartBefore(now)` is
    `start < now`, `EndAfter(now)` is `end > now`, `OrderByStartDesc` sorts by
    `start`, latest first. */
module BookingQueries {
  import opened Common
  import opened Domain

  /** The listing state a caller asks for. */
  datatype State = All | Current | Past | Future | Waiting | Rejected

  /** The string the string-typed listings compare the state against. */
  function StateName(st: State): string
  {
    match st
    case All => "ALL"
    case Current => "CURRENT"
    case Past => "PAST"
    case Future => "FUTURE"
    case Waiting => "WAITING"
    case Rejected => "REJECTED"
  }

  /** The string `switch` of the listings: one of the six names, or nothing. */
  function ParseState(s: string): (r: Option<State>)
  {
    if s == "ALL" then Some(All)
    else if s == "CURRENT" then Some(Current)
    else if s == "PAST" then Some(Past)
    else if s == "FUTURE" then Some(Future)
    else if s == "WAITING" then Some(State.Waiting)
    else if s == "REJECTED" then Some(State.Rejected)
    else None
  }

  /** A string is recognised exactly when it is the name of a state, and then
      it denotes that state; names and parsing are inverse. */
  lemma ParseStateIffName(s: string, st: State)
    ensures ParseState(s) == Some(st) <==> s == StateName(st)
    ensures ParseState(StateName(st)) == Some(st)
  {
  }

  /** A string that is none of the six names is not recognised. */
  lemma UnknownNameUnrecognised(s: string)
    requires forall st: State :: s != StateName(st)
    ensures ParseState(s) == None
  {
    assert s != StateName(All) && s != StateName(Current) && s != StateName(Past);
    assert s != StateName(Future) && s != StateName(State.Waiting) && s != StateName(State.Rejected);
  }

  /** The predicate of each listing branch, evaluated at time `now`. */
  predicate InState(st: State, b: Booking, now: Time)
  {
    match st
    case All => true
    case Current => b.start < now && b.end > now
    case Past => b.end < now
    case Future => b.start > now
    case Waiting => b.status == Status.Waiting
    case Rejected => b.status == Status.Rejected
  }

  /** Whose bookings a listing is about: those the user booked
      (`findAllByBookerId...`) or those of the user's items (`findAllByItemOwnerId...`). */
  datatype Scope = ByBooker(userId: int) | ByOwner(ownerId: int)

  predicate InScope(sc: Scope, b: Booking)
  {
    match sc
    case ByBooker(u) => b.booker.id == u
    case ByOwner(o) => b.item.owner.id == o
  }

  /** The `WHERE` part of a derived query: the rows of `bs` satisfying `p`, in table order. */
  function Select(bs: seq<Booking>, p: Booking -> bool): (r: seq<Booking>)
    ensures |r| <= |bs|
    ensures forall x :: multiset(r)[x] == if p(x) then multiset(bs)[x] else 0
    ensures forall x :: x in r <==> x in bs && p(x)
  {
    if bs == [] then []
    else
      var rest := Select(bs[1..], p);
      assert bs == [bs[0]] + bs[1..];
      assert forall x :: x in rest <==> x in multiset(rest);
      if p(bs[0]) then [bs[0]] + rest else rest
  }

  /** Direction of an `OrderByStart...` clause. */
  datatype Order = Asc | Desc

  predicate Precedes(o: Order, a: Booking, b: Booking)
  {
    if o == Asc then a.start <= b.start else a.start >= b.start
  }

  /** Every earlier element precedes every later one. */
  predicate Sorted(o: Order, s: seq<Booking>)
  {
    forall i, j :: 0 <= i < j < |s| ==> Precedes(o, s[i], s[j])
  }

  /** A contiguous block of a sorted sequence is sorted. */
  lemma SliceOfSorted(o: Order, s: seq<Booking>, lo: int, hi: int)
    requires Sorted(o, s) && 0 <= lo <= hi <= |s|
    ensures Sorted(o, s[lo..hi])
  {
    var t := s[lo..hi];
    forall i, j | 0 <= i < j < |t| ensures Precedes(o, t[i], t[j]) {
      assert t[i] == s[lo + i] && t[j] == s[lo + j];
    }
  }

  /** Inserts `x` into a sorted sequence, before the first element it precedes. */
  function Insert(o: Order, x: Booking, s: seq<Booking>): (r: seq<Booking>)
    requires Sorted(o, s)
    ensures Sorted(o, r)
    ensures multiset(r) == multiset(s) + multiset{x}
    ensures |r| == |s| + 1
  {
    if s == [] then [x]
    else if Precedes(o, x, s[0]) then [x] + s
    else
      var rest := Insert(o, x, s[1..]);
      assert s == [s[0]] + s[1..];
      assert forall k :: 0 <= k < |rest| ==> Precedes(o, s[0], rest[k]) by {
        forall k | 0 <= k < |rest|
          ensures Precedes(o, s[0], rest[k])
        {
          assert rest[k] in multiset(rest);
          assert rest[k] == x || rest[k] in multiset(s[1..]);
        }
      }
      [s[0]] + rest
  }

  /** The ordering of an `OrderByStart...` query: a sorted permutation of its input. */
  function Sort(o: Order, s: seq<Booking>): (r: seq<Booking>)
    ensures Sorted(o, r)
    ensures multiset(r) == multiset(s)
    ensures |r| == |s|
  {
    if s == [] then []
    else
      assert s == [s[0]] + s[1..];
      Insert(o, s[0], Sort(o, s[1..]))
  }

  /** The result of a listing branch: the bookings in scope and in the state,
      latest start first. */
  function FindAll(bs: seq<Booking>, sc: Scope, st: State, now: Time): (r: seq<Booking>)
    ensures Sorted(Desc, r)
    ensures forall x :: x in r <==> x in bs && InScope(sc, x) && InState(st, x, now)
    ensures forall x :: multiset(r)[x] == if InScope(sc, x) && InState(st, x, now) then multiset(bs)[x] else 0
  {
    var r := Sort(Desc, Select(bs, b => InScope(sc, b) && InState(st, b, now)));
    assert forall x :: x in r <==> x in multiset(r);
    r
  }

  /** CURRENT is strict on both sides: a booking starting or ending exactly
      now is not current; one starting now is not future either, and one
      ending now is not past. */
  lemma BoundariesAreStrict(b: Booking, now: Time)
    ensures b.start == now ==> !InState(Current, b, now) && !InState(Future, b, now)
    ensures b.end == now ==> !InState(Current, b, now) && !InState(Past, b, now)
  {
  }

  /** Off the boundaries, a well-formed booking (start before end) is in exactly
      one of CURRENT, PAST and FUTURE. */
  lemma TemporalStatesPartition(b: Booking, now: Time)
    requires b.start < b.end && b.start != now && b.end != now
    ensures InState(Current, b, now) || InState(Past, b, now) || InState(Future, b, now)
    ensures !(InState(Current, b, now) && InState(Past, b, now))
    ensures !(InState(Current, b, now) && InState(Future, b, now))
    ensures !(InState(Past, b, now) && InState(Future, b, now))
  {
  }
}
